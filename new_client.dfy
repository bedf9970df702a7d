/**
 * novo-cliente.js: the new-client form. The ISO date inputs are rewritten
 * as `dd/mm/yyyy`, the record to send is collected, the two required
 * fields are checked before anything is sent, and the save reply is
 * turned into the message shown.
 */
module NewClient {
  import opened Wrappers
  import opened Text
  import opened JsValues
  import opened Calendar
  import opened Records

  // ---------------------------------------------------------------------------
  // toBrDate

  /**
   * `toBrDate(iso)`: "" for an empty input or when one of the first three
   * `-`-separated parts is missing or empty; otherwise the third, second
   * and first parts joined by slashes. Later parts are ignored.
   */
  function ToBrDate(iso: string): (br: string)
    ensures iso == "" ==> br == ""
    ensures br != "" <==> var p := Split(iso, '-'); |p| >= 3 && p[0] != "" && p[1] != "" && p[2] != ""
  {
    if iso == "" then ""
    else
      var parts := Split(iso, '-');
      if |parts| < 3 || parts[0] == "" || parts[1] == "" || parts[2] == "" then ""
      else parts[2] + "/" + parts[1] + "/" + parts[0]
  }

  /**
   * Year, month and day fields are reordered day first, without padding
   * or validation, whatever follows the day.
   */
  lemma ToBrDateOfFields(y: string, m: string, d: string, rest: string)
    requires y != "" && m != "" && d != ""
    requires '-' !in y && '-' !in m && '-' !in d
    requires rest == "" || rest[0] == '-'
    ensures ToBrDate(y + "-" + m + "-" + d + rest) == d + "/" + m + "/" + y
  {
    var iso := y + "-" + m + "-" + d + rest;
    assert iso == y + ['-'] + (m + ['-'] + (d + rest));
    SplitFirst(y, '-', m + "-" + d + rest);
    assert m + "-" + d + rest == m + ['-'] + (d + rest);
    SplitFirst(m, '-', d + rest);
    if rest == "" {
      assert d + rest == d;
      SplitWhole(d, '-');
    } else {
      assert d + rest == d + ['-'] + rest[1..];
      SplitFirst(d, '-', rest[1..]);
    }
  }

  /** A text with fewer than two `-` gives "". */
  lemma ToBrDateMissingPart(a: string, b: string)
    requires '-' !in a && '-' !in b
    ensures ToBrDate(a) == ""
    ensures ToBrDate(a + "-" + b) == ""
  {
    SplitWhole(a, '-');
    SplitWhole(b, '-');
    SplitFirst(a, '-', b);
    assert a + "-" + b == a + ['-'] + b;
  }

  /** `yyyy-mm-dd` written by a date input, for a date of years 0000 to 9999. */
  function IsoText(y: nat, m: nat, d: nat): string
    requires y < 10000 && m < 100 && d < 100
  {
    Pad4(y) + "-" + Pad2(m) + "-" + Pad2(d)
  }

  lemma DigitsHaveNoDash(s: string)
    requires AllDigits(s)
    ensures '-' !in s
  {
  }

  /**
   * Any `yyyy-mm-dd` text of digits becomes a text the dashboard's date
   * parser accepts, and it reads it as `new Date(yyyy, mm - 1, dd)`.
   */
  lemma IsoDigitsReadBack(yyyy: string, mm: string, dd: string)
    requires |yyyy| == 4 && |mm| == 2 && |dd| == 2
    requires AllDigits(yyyy) && AllDigits(mm) && AllDigits(dd)
    ensures ToBrDate(yyyy + "-" + mm + "-" + dd) == dd + "/" + mm + "/" + yyyy
    ensures ParseBrDate(Str(ToBrDate(yyyy + "-" + mm + "-" + dd)))
      == Some(MakeDay(DigitsValue(yyyy), DigitsValue(mm) - 1, DigitsValue(dd)))
  {
    DigitsHaveNoDash(yyyy);
    DigitsHaveNoDash(mm);
    DigitsHaveNoDash(dd);
    ToBrDateOfFields(yyyy, mm, dd, "");
    assert yyyy + "-" + mm + "-" + dd + "" == yyyy + "-" + mm + "-" + dd;
    ParseBrDateOfParts(dd, mm, yyyy);
  }

  /** A real date chosen in the form is read back by the dashboard as that same date. */
  lemma IsoRoundTrip(y: nat, m: nat, d: nat)
    requires y < 10000 && ValidDate(y, m, d)
    ensures ToBrDate(IsoText(y, m, d)) == BrText(y, m, d)
    ensures ParseBrDate(Str(ToBrDate(IsoText(y, m, d)))) == Some(DayOf(y, m, d))
  {
    IsoDigitsReadBack(Pad4(y), Pad2(m), Pad2(d));
  }

  // ---------------------------------------------------------------------------
  // collect

  /** The values of the form's inputs as typed or picked. */
  datatype Form = Form(
    cliente: string,
    implantador: string,
    concluido: string,
    dataInicio: string,
    previsaoStart: string,
    startReal: string,
    passadoSuporte: string,
    dataPassagemSuporte: string,
    obs: string)

  /** The record `collect` builds and `onSave` sends. */
  datatype ClientRecord = ClientRecord(
    action: string,
    cliente: string,
    implantador: string,
    concluido: string,
    dataInicio: string,
    previsaoStart: string,
    startReal: string,
    passadoSuporte: string,
    dataPassagemSuporte: string,
    obs: string)

  const CreateAction: string := "createClient"

  /**
   * `collect()`: the action name, the five text inputs trimmed and the
   * four date inputs rewritten by `toBrDate`.
   */
  function Collect(f: Form): (rec: ClientRecord)
    ensures rec.action == CreateAction
    ensures IsTrimmed(rec.cliente) && IsTrimmed(rec.implantador) && IsTrimmed(rec.concluido)
    ensures IsTrimmed(rec.passadoSuporte) && IsTrimmed(rec.obs)
    ensures rec.dataInicio == ToBrDate(f.dataInicio) && rec.previsaoStart == ToBrDate(f.previsaoStart)
    ensures rec.startReal == ToBrDate(f.startReal)
    ensures rec.dataPassagemSuporte == ToBrDate(f.dataPassagemSuporte)
    ensures f.dataInicio == "" ==> rec.dataInicio == ""
    ensures f.previsaoStart == "" ==> rec.previsaoStart == ""
    ensures f.startReal == "" ==> rec.startReal == ""
    ensures f.dataPassagemSuporte == "" ==> rec.dataPassagemSuporte == ""
    ensures '-' !in rec.dataInicio && '-' !in rec.previsaoStart
    ensures '-' !in rec.startReal && '-' !in rec.dataPassagemSuporte
  {
    ClientRecord(
      CreateAction,
      Trim(f.cliente),
      Trim(f.implantador),
      Trim(f.concluido),
      ToBrDate(f.dataInicio),
      ToBrDate(f.previsaoStart),
      ToBrDate(f.startReal),
      Trim(f.passadoSuporte),
      ToBrDate(f.dataPassagemSuporte),
      Trim(f.obs))
  }

  /** Each text input is sent as typed, less the blanks around it. */
  lemma CollectTrimsTexts(f: Form, a: string, m: string, b: string)
    requires AllSpace(a) && AllSpace(b) && IsTrimmed(m)
    ensures f.cliente == a + m + b ==> Collect(f).cliente == m
    ensures f.implantador == a + m + b ==> Collect(f).implantador == m
    ensures f.concluido == a + m + b ==> Collect(f).concluido == m
    ensures f.passadoSuporte == a + m + b ==> Collect(f).passadoSuporte == m
    ensures f.obs == a + m + b ==> Collect(f).obs == m
  {
    TrimCore(a, m, b);
  }

  /** Each date input holding `yyyy-mm-dd` is sent as `dd/mm/yyyy`. */
  lemma CollectRewritesDates(f: Form, y: nat, m: nat, d: nat)
    requires y < 10000 && m < 100 && d < 100
    ensures f.dataInicio == IsoText(y, m, d) ==> Collect(f).dataInicio == BrText(y, m, d)
    ensures f.previsaoStart == IsoText(y, m, d) ==> Collect(f).previsaoStart == BrText(y, m, d)
    ensures f.startReal == IsoText(y, m, d) ==> Collect(f).startReal == BrText(y, m, d)
    ensures f.dataPassagemSuporte == IsoText(y, m, d) ==> Collect(f).dataPassagemSuporte == BrText(y, m, d)
  {
    IsoDigitsReadBack(Pad4(y), Pad2(m), Pad2(d));
  }

  // ---------------------------------------------------------------------------
  // onSave: validation

  const MsgNoCliente: string := "Informe o nome do cliente."
  const MsgNoImplantador: string := "Selecione o implantador."

  /** The checks `onSave` makes before sending: the client name first, then the implantador. */
  function Validate(rec: ClientRecord): (err: Option<string>)
    ensures err.None? <==> rec.cliente != "" && rec.implantador != ""
    ensures rec.cliente == "" ==> err == Some(MsgNoCliente)
    ensures rec.cliente != "" && rec.implantador == "" ==> err == Some(MsgNoImplantador)
  {
    if rec.cliente == "" then Some(MsgNoCliente)
    else if rec.implantador == "" then Some(MsgNoImplantador)
    else None
  }

  /** A client name of blanks only counts as missing. */
  lemma BlankClienteRejected(f: Form)
    requires AllSpace(f.cliente)
    ensures Validate(Collect(f)) == Some(MsgNoCliente)
  {
    TrimCore(f.cliente, [], []);
    assert f.cliente + [] + [] == f.cliente;
  }

  // ---------------------------------------------------------------------------
  // onSave: the reply

  const MsgUnexpected: string := "Erro inesperado ao salvar."
  const SavedHeader: string := "Cliente salvo com sucesso!\n"

  /** The line added for a reply field when it is truthy. */
  function InfoLine(caption: string, v: JsValue): string {
    if Truthy(v) then caption + ToStr(v) + "\n" else ""
  }

  /**
   * The reply of the save call: success only when it has `ok` equal to
   * `true`, with the saved message and the folder and row lines the reply
   * carries; otherwise the text of `new Error(resp?.error || "Erro
   * inesperado ao salvar.")` as the catch block shows it.
   */
  function InterpretReply(resp: JsValue): (r: Result<string, string>)
    ensures r.Ok? <==> resp.Obj? && Get(resp, "ok") == Bool(true)
    ensures r.Err? && !Truthy(Get(resp, "error")) ==> r.error == MsgUnexpected
    ensures r.Err? && Get(resp, "error").Str? && Get(resp, "error").s != "" ==> r.error == Get(resp, "error").s
    ensures r.Err? ==> r.error != ""
    ensures r.Ok? ==> |r.value| >= |SavedHeader| && r.value[..|SavedHeader|] == SavedHeader
  {
    if !Truthy(resp) || Get(resp, "ok") != Bool(true) then
      var error := Get(resp, "error");
      Err(ErrorText(ToStr(if Truthy(error) then error else Str(MsgUnexpected))))
    else
      var text := SavedHeader + InfoLine("Pasta: ", Get(resp, "pasta_url")) + InfoLine("Linha/ID: ", Get(resp, "linha"));
      assert text[..|SavedHeader|] == SavedHeader;
      Ok(text)
  }

  /** The saved message is the header alone unless the reply names a folder or a row. */
  lemma SavedMessageLines(resp: JsValue)
    requires resp.Obj? && Get(resp, "ok") == Bool(true)
    ensures !Truthy(Get(resp, "pasta_url")) && !Truthy(Get(resp, "linha"))
      ==> InterpretReply(resp) == Ok(SavedHeader)
    ensures Truthy(Get(resp, "pasta_url")) && !Truthy(Get(resp, "linha"))
      ==> InterpretReply(resp) == Ok(SavedHeader + "Pasta: " + ToStr(Get(resp, "pasta_url")) + "\n")
    ensures !Truthy(Get(resp, "pasta_url")) && Truthy(Get(resp, "linha"))
      ==> InterpretReply(resp) == Ok(SavedHeader + "Linha/ID: " + ToStr(Get(resp, "linha")) + "\n")
    ensures Truthy(Get(resp, "pasta_url")) && Truthy(Get(resp, "linha"))
      ==> InterpretReply(resp) == Ok(SavedHeader + "Pasta: " + ToStr(Get(resp, "pasta_url")) + "\n"
                                     + "Linha/ID: " + ToStr(Get(resp, "linha")) + "\n")
  {
    var pasta := "Pasta: " + ToStr(Get(resp, "pasta_url")) + "\n";
    var linha := "Linha/ID: " + ToStr(Get(resp, "linha")) + "\n";
    assert SavedHeader + "" + "" == SavedHeader;
    assert SavedHeader + pasta + "" == SavedHeader + "Pasta: " + ToStr(Get(resp, "pasta_url")) + "\n";
    assert SavedHeader + "" + linha == SavedHeader + "Linha/ID: " + ToStr(Get(resp, "linha")) + "\n";
    assert SavedHeader + pasta + linha
      == SavedHeader + "Pasta: " + ToStr(Get(resp, "pasta_url")) + "\n" + "Linha/ID: " + ToStr(Get(resp, "linha")) + "\n";
  }

  /** What `onSave` leads to: the record sent, if any, and the message shown (`showOk` or `showErr`). */
  datatype SaveOutcome = SaveOutcome(sent: Option<ClientRecord>, shown: Result<string, string>)

  /**
   * `onSave`: collect, validate, send, interpret. `reply` is what the send
   * yields: the decoded reply, or the message of the error it throws.
   */
  function OnSave(f: Form, reply: Result<JsValue, string>): (out: SaveOutcome)
    ensures out.sent.Some? <==> Validate(Collect(f)).None?
    ensures out.sent.Some? ==> out.sent.value == Collect(f)
    ensures out.sent.None? ==> out.shown == Err(Validate(Collect(f)).value)
    ensures out.shown.Ok? ==> out.sent.Some? && reply.Ok? && InterpretReply(reply.value).Ok?
    ensures out.sent.Some? && reply.Err? ==> out.shown == Err(ErrorText(reply.error))
    ensures out.sent.Some? && reply.Ok? ==> out.shown == InterpretReply(reply.value)
  {
    var rec := Collect(f);
    match Validate(rec)
    case Some(message) => SaveOutcome(None, Err(message))
    case None =>
      match reply
      case Err(message) => SaveOutcome(Some(rec), Err(ErrorText(message)))
      case Ok(resp) => SaveOutcome(Some(rec), InterpretReply(resp))
  }

  // ---------------------------------------------------------------------------
  // The saved record seen by the dashboard

  /** A stored start date in the day-first form is read back as that day, and as started. */
  lemma StartRealReadsBack(raw: JsValue, y: nat, m: nat, d: nat)
    requires y < 10000 && ValidDate(y, m, d)
    requires raw.Obj? && Get(raw, "start_real") == Str(BrText(y, m, d))
    ensures NormalizeRow(raw).dStartReal == Some(DayOf(y, m, d))
    ensures !NormalizeRow(raw).noStartReal
  {
    var br := BrText(y, m, d);
    IsoRoundTrip(y, m, d);
    PatternIsTrimmed(br);
    StrNormField(raw, "start_real", br);
    var r := NormalizeRow(raw);
    assert r.startReal == br;
    NoStartRealIffUndated(r);
  }

  /**
   * A start date left empty in the form is sent as "", and a row stored
   * with it is read by the dashboard as having no start date, so as not
   * started.
   */
  lemma EmptyStartRealReadsBack(f: Form, raw: JsValue)
    requires f.startReal == ""
    requires raw.Obj? && Get(raw, "start_real") == Str(Collect(f).startReal)
    ensures Collect(f).startReal == ""
    ensures NormalizeRow(raw).startReal == ""
    ensures NormalizeRow(raw).dStartReal.None?
    ensures NormalizeRow(raw).noStartReal
  {
  }

  /**
   * A row stored with the fields of a collected record, its start date
   * picked as a real date, is read by the dashboard with the same client
   * and implantador, that start date, and as started.
   */
  lemma CollectedRecordReadsBack(f: Form, raw: JsValue, y: nat, m: nat, d: nat)
    requires y < 10000 && ValidDate(y, m, d)
    requires f.startReal == IsoText(y, m, d)
    requires raw.Obj?
    requires Get(raw, "cliente") == Str(Collect(f).cliente)
    requires Get(raw, "implantador") == Str(Collect(f).implantador)
    requires Get(raw, "start_real") == Str(Collect(f).startReal)
    ensures NormalizeRow(raw).cliente == Collect(f).cliente
    ensures NormalizeRow(raw).implantador == Collect(f).implantador
    ensures NormalizeRow(raw).dStartReal == Some(DayOf(y, m, d))
    ensures !NormalizeRow(raw).noStartReal
  {
    var rec := Collect(f);
    IsoRoundTrip(y, m, d);
    assert rec.startReal == BrText(y, m, d);
    StartRealReadsBack(raw, y, m, d);
    StrNormField(raw, "cliente", rec.cliente);
    StrNormField(raw, "implantador", rec.implantador);
  }
}
