/**
 * What `handleForecast` does with a request and the key-value store, as a
 * specification shared by both handler files: the upload path validates the
 * CSV, stores the extracted series under `raw_data` and regenerates the
 * forecast; every other request regenerates the forecast from the stored
 * series, or from a fixed fallback series when none is stored. Both paths
 * overwrite `forecast_data` on success and write nothing on failure.
 */
module Orchestrator {
  import opened Wrappers
  import opened Ingest
  import opened Engine
  import opened KvStore

  const RawDataKey: string := "raw_data"
  const ForecastDataKey: string := "forecast_data"
  const UploadPath: string := "/forecast/upload"

  /** The series the read path projects when nothing has been uploaded. */
  const FallbackRevenue: seq<real> := [12000.0, 13500.0, 14200.0, 15000.0]

  /** The JavaScript file's limit on the uploaded text's `length` (1 MB). */
  const MaxTextLength: nat := 1024 * 1024

  const NoFileError: string := "No file uploaded"
  const TooLargeError: string := "File too large. Maximum size is 1MB"
  const ParseFailedError: string := "Failed to parse CSV"
  const EmptyCsvError: string := "CSV is empty or invalid"
  const NoRevenueError: string := "No valid revenue data found in CSV"
  const NoDataError: string := "No revenue data available for forecasting"
  const UploadMessage: string := "Revenue uploaded and forecast generated successfully"

  // ---------------------------------------------------------------------------
  // Stored documents

  /** The `revenue` field of the document stored under `raw_data`. */
  datatype RevenueField = Numbers(values: seq<real>) | NotAnArray

  /** The document stored under `forecast_data`. */
  datatype ForecastRecord = ForecastRecord(
    forecast: seq<real>, trends: seq<Trend>, pctChange: seq<Option<real>>,
    peaks: seq<nat>, drops: seq<nat>, generatedAt: int)

  /**
   * A stored value: the empty string (falsy, so treated like an absent key),
   * a document with a `revenue` field, or a forecast record.
   */
  datatype Entry = EmptyText | RevenueDoc(revenue: RevenueField) | ForecastDoc(record: ForecastRecord)

  // ---------------------------------------------------------------------------
  // Requests and responses

  /** What the CSV parser returned for the uploaded text: its rows, or an exception. */
  datatype Csv = Rows(rows: seq<Row>) | Unparseable

  /** The uploaded `file` form field: the `length` of its text and the parser's result on it. */
  datatype UploadedFile = UploadedFile(textLength: nat, csv: Csv)

  datatype Request = Request(httpMethod: string, pathname: string, period: Option<string>, file: Option<UploadedFile>)

  /** One chart series; `name` is the JSON `label` key. */
  datatype Dataset = Dataset(name: string, data: seq<real>, borderColor: string, fill: bool)

  /** The JSON body of a successful response; `message` is present on the upload path only. */
  datatype Payload = Payload(
    message: Option<string>, revenue: seq<real>, forecast: seq<real>, trends: seq<Trend>,
    pctChange: seq<Option<real>>, peaks: seq<nat>, drops: seq<nat>,
    labels: seq<string>, datasets: seq<Dataset>)

  datatype Response = Ok(payload: Payload) | Err(status: nat, error: string)

  /** A response together with the store contents after the request. */
  datatype Outcome = Outcome(response: Response, entries: map<string, Entry>)

  predicate IsUpload(req: Request)
  {
    req.httpMethod == "POST" && req.pathname == UploadPath
  }

  /** `url.searchParams.get("period") || "quarterly"`. */
  function PeriodOf(param: Option<string>): string
  {
    if param.None? || param.value == "" then "quarterly" else param.value
  }

  predicate IsMonthly(param: Option<string>)
  {
    PeriodOf(param) == "monthly"
  }

  function Datasets(revenue: seq<real>, forecast: seq<real>): seq<Dataset>
  {
    [Dataset("Revenue", revenue, "blue", false), Dataset("Forecast", forecast, "orange", false)]
  }

  /** The series the read path works on: the stored one, the fallback, or None (the 400 case). */
  function StoredRevenue(entries: map<string, Entry>): Option<seq<real>>
  {
    if RawDataKey !in entries || entries[RawDataKey] == EmptyText then Some(FallbackRevenue)
    else match entries[RawDataKey]
      case RevenueDoc(Numbers(values)) => if values == [] then None else Some(values)
      case _ => None
  }

  // ---------------------------------------------------------------------------
  // The handler, as a function of the store

  /** Projection, trends, extrema and labels for `revenue`; the record replaces `forecast_data`. */
  function Forecast(entries: map<string, Entry>, revenue: seq<real>, monthly: bool, message: Option<string>, now: int): Outcome
    requires |revenue| > 0
  {
    var f := Project(revenue, monthly);
    var record := ForecastRecord(f, Trends(f), PctChanges(f), Extrema(f, Peak), Extrema(f, Drop), now);
    var payload := Payload(message, revenue, f, record.trends, record.pctChange, record.peaks, record.drops,
                           Labels(monthly, |f|), Datasets(revenue, f));
    Outcome(Ok(payload), entries[ForecastDataKey := ForecastDoc(record)])
  }

  function Upload(variant: Variant, entries: map<string, Entry>, req: Request, now: int): Outcome
  {
    match req.file
    case None => Outcome(Err(400, NoFileError), entries)
    case Some(file) =>
      if variant == JavaScript && file.textLength > MaxTextLength then Outcome(Err(413, TooLargeError), entries)
      else match file.csv
        case Unparseable => Outcome(Err(400, ParseFailedError), entries)
        case Rows(rows) =>
          if rows == [] then Outcome(Err(400, EmptyCsvError), entries)
          else
            var revenue := Extracted(variant, rows);
            if revenue == [] then Outcome(Err(400, NoRevenueError), entries)
            else Forecast(entries[RawDataKey := RevenueDoc(Numbers(revenue))], revenue, IsMonthly(req.period), Some(UploadMessage), now)
  }

  function Read(entries: map<string, Entry>, req: Request, now: int): Outcome
  {
    match StoredRevenue(entries)
    case None => Outcome(Err(400, NoDataError), entries)
    case Some(revenue) => Forecast(entries, revenue, IsMonthly(req.period), None, now)
  }

  /** `handleForecast` for one handler file; `now` is `Date.now()`. */
  function Handle(variant: Variant, entries: map<string, Entry>, req: Request, now: int): Outcome
  {
    if IsUpload(req) then Upload(variant, entries, req, now) else Read(entries, req, now)
  }

  // ---------------------------------------------------------------------------
  // The forecast block both paths run

  /**
   * The block both paths run after the series is known: the projection loop,
   * the extremum loop, the `forecast_data` write and the assembled response.
   */
  method Regenerate(store: Store<Entry>, revenue: seq<real>, monthly: bool, message: Option<string>, now: int)
    returns (response: Response)
    requires |revenue| > 0
    modifies store
    ensures Outcome(response, store.entries) == Forecast(old(store.entries), revenue, monthly, message, now)
  {
    var forecast, labels, trends, pctChange := Generate(revenue, monthly);
    var peaks, drops := DetectExtrema(forecast);
    store.Put(ForecastDataKey, ForecastDoc(ForecastRecord(forecast, trends, pctChange, peaks, drops, now)));
    response := Ok(Payload(message, revenue, forecast, trends, pctChange, peaks, drops, labels, Datasets(revenue, forecast)));
  }

  // ---------------------------------------------------------------------------
  // Properties of the handler

  /** The period is monthly exactly when the parameter is "monthly"; missing, empty or anything else means quarterly. */
  lemma {:induction false} MonthlyIffRequested(param: Option<string>)
    ensures IsMonthly(param) <==> param == Some("monthly")
  {
  }

  /** Every error leaves the store as it was: nothing is written before the result is known. */
  lemma {:induction false} FailuresLeaveStoreUntouched(variant: Variant, entries: map<string, Entry>, req: Request, now: int)
    ensures Handle(variant, entries, req, now).response.Err? ==> Handle(variant, entries, req, now).entries == entries
  {
  }

  /** The upload path's errors, in the order they are checked, and when it succeeds. */
  lemma {:induction false} UploadOutcomes(variant: Variant, entries: map<string, Entry>, req: Request, now: int)
    requires IsUpload(req)
    ensures var o := Handle(variant, entries, req, now);
      && (req.file.None? ==> o.response == Err(400, NoFileError))
      && (req.file.Some? && variant == JavaScript && req.file.value.textLength > MaxTextLength ==>
            o.response == Err(413, TooLargeError))
      && (o.response.Err? && o.response.status == 413 ==> variant == JavaScript)
      && (o.response.Ok? <==>
            && req.file.Some?
            && (variant == JavaScript ==> req.file.value.textLength <= MaxTextLength)
            && req.file.value.csv.Rows?
            && Extracted(variant, req.file.value.csv.rows) != [])
  {
    if req.file.Some? && req.file.value.csv.Rows? && req.file.value.csv.rows == [] {
      assert Extracted(variant, req.file.value.csv.rows) == [];
    }
  }

  /** A parsed CSV without rows, or without a single usable revenue cell, is refused with its own message. */
  lemma {:induction false} UploadRefusesUnusableCsv(variant: Variant, entries: map<string, Entry>, req: Request, now: int)
    requires IsUpload(req) && req.file.Some? && req.file.value.csv.Rows?
    requires variant == JavaScript ==> req.file.value.textLength <= MaxTextLength
    ensures var rows := req.file.value.csv.rows;
      && (rows == [] ==> Handle(variant, entries, req, now).response == Err(400, EmptyCsvError))
      && (rows != [] && (forall i :: 0 <= i < |rows| ==> RowValue(variant, rows[i]).None?) ==>
            Handle(variant, entries, req, now).response == Err(400, NoRevenueError))
  {
    ExtractedEmpty(variant, req.file.value.csv.rows);
  }

  /**
   * A successful upload stores exactly the extracted series under `raw_data`,
   * then overwrites `forecast_data` with the record of what it returns; no
   * other key changes.
   */
  lemma {:induction false} UploadStoresSeries(variant: Variant, entries: map<string, Entry>, req: Request, now: int)
    requires IsUpload(req)
    ensures var o := Handle(variant, entries, req, now);
      o.response.Ok? ==>
      var p := o.response.payload;
      && req.file.Some? && req.file.value.csv.Rows?
      && p.revenue == Extracted(variant, req.file.value.csv.rows) && p.revenue != []
      && p.message == Some(UploadMessage)
      && o.entries == entries[RawDataKey := RevenueDoc(Numbers(p.revenue))]
                             [ForecastDataKey := ForecastDoc(ForecastRecord(p.forecast, p.trends, p.pctChange, p.peaks, p.drops, now))]
  {
  }

  /** The read path never writes `raw_data`, nor any key but `forecast_data`. */
  lemma {:induction false} ReadWritesOnlyForecast(variant: Variant, entries: map<string, Entry>, req: Request, now: int)
    requires !IsUpload(req)
    ensures var o := Handle(variant, entries, req, now);
      forall k :: k != ForecastDataKey ==> (k in o.entries <==> k in entries) && (k in entries ==> o.entries[k] == entries[k])
  {
  }

  /**
   * The read path fails exactly when `raw_data` holds something other than a
   * non-empty array of numbers (and is not the empty string); with nothing
   * stored it projects the fallback series.
   */
  lemma {:induction false} ReadOutcomes(variant: Variant, entries: map<string, Entry>, req: Request, now: int)
    requires !IsUpload(req)
    ensures var o := Handle(variant, entries, req, now);
      && (o.response.Err? <==>
            RawDataKey in entries && entries[RawDataKey] != EmptyText &&
            !(entries[RawDataKey].RevenueDoc? && entries[RawDataKey].revenue.Numbers? && entries[RawDataKey].revenue.values != []))
      && (o.response.Err? ==> o.response == Err(400, NoDataError))
      && (RawDataKey !in entries ==> o.response.Ok? && o.response.payload.revenue == FallbackRevenue)
  {
  }

  /** What the shared forecasting step returns is internally consistent. */
  lemma {:induction false} ForecastConsistent(entries: map<string, Entry>, revenue: seq<real>, monthly: bool, message: Option<string>, now: int)
    requires |revenue| > 0
    ensures var p := Forecast(entries, revenue, monthly, message, now).response.payload;
      && p.revenue == revenue && p.message == message
      && p.forecast == Project(revenue, monthly)
      && |p.forecast| == |p.labels| == |p.trends| == |p.pctChange| == Horizon(monthly, |revenue|)
      && p.labels == Labels(monthly, |p.forecast|)
      && p.trends == Trends(p.forecast) && p.pctChange == PctChanges(p.forecast)
      && p.peaks == Extrema(p.forecast, Peak) && p.drops == Extrema(p.forecast, Drop)
      && p.datasets == Datasets(revenue, p.forecast)
  {
  }

  /**
   * A successful response is internally consistent: the forecast is the
   * projection of the returned series over the requested horizon, one label,
   * trend and percent change per forecast value, and the extrema of the forecast.
   */
  lemma {:induction false} PayloadConsistent(variant: Variant, entries: map<string, Entry>, req: Request, now: int)
    ensures var o := Handle(variant, entries, req, now);
      o.response.Ok? ==>
      var p := o.response.payload;
      && |p.revenue| > 0
      && p.forecast == Project(p.revenue, IsMonthly(req.period))
      && |p.forecast| == |p.labels| == |p.trends| == |p.pctChange| == Horizon(IsMonthly(req.period), |p.revenue|)
      && p.labels == Labels(IsMonthly(req.period), |p.forecast|)
      && p.trends == Trends(p.forecast) && p.pctChange == PctChanges(p.forecast)
      && p.peaks == Extrema(p.forecast, Peak) && p.drops == Extrema(p.forecast, Drop)
      && p.datasets == Datasets(p.revenue, p.forecast)
  {
    var monthly := IsMonthly(req.period);
    if Handle(variant, entries, req, now).response.Err? {
    } else if IsUpload(req) {
      var revenue := Extracted(variant, req.file.value.csv.rows);
      var stored := entries[RawDataKey := RevenueDoc(Numbers(revenue))];
      assert Handle(variant, entries, req, now) == Forecast(stored, revenue, monthly, Some(UploadMessage), now);
      ForecastConsistent(stored, revenue, monthly, Some(UploadMessage), now);
    } else {
      var revenue := StoredRevenue(entries).value;
      assert Handle(variant, entries, req, now) == Forecast(entries, revenue, monthly, None, now);
      ForecastConsistent(entries, revenue, monthly, None, now);
    }
  }

  /**
   * Regenerating twice without an upload in between gives the same response
   * and the same record, except for the generation time.
   */
  lemma {:induction false} RegenerationIsIdempotent(variant: Variant, entries: map<string, Entry>, req: Request, t1: int, t2: int)
    requires !IsUpload(req)
    ensures var o1 := Handle(variant, entries, req, t1);
      var o2 := Handle(variant, o1.entries, req, t2);
      && o2.response == o1.response
      && (o1.response.Ok? ==>
            && ForecastDataKey in o1.entries && o1.entries[ForecastDataKey].ForecastDoc?
            && o2.entries == o1.entries[ForecastDataKey := ForecastDoc(o1.entries[ForecastDataKey].record.(generatedAt := t2))])
  {
    var o1 := Handle(variant, entries, req, t1);
    if o1.response.Ok? {
      assert StoredRevenue(o1.entries) == StoredRevenue(entries);
    }
  }

  /** Reading right after a successful upload, with the same period, returns what the upload returned, minus its message. */
  lemma {:induction false} ReadAfterUploadAgrees(variant: Variant, entries: map<string, Entry>, up: Request, rd: Request, t1: int, t2: int)
    requires IsUpload(up) && !IsUpload(rd) && IsMonthly(up.period) == IsMonthly(rd.period)
    ensures var o1 := Handle(variant, entries, up, t1);
      o1.response.Ok? ==> Handle(variant, o1.entries, rd, t2).response == Ok(o1.response.payload.(message := None))
  {
    var o1 := Handle(variant, entries, up, t1);
    if o1.response.Ok? {
      assert StoredRevenue(o1.entries) == Some(o1.response.payload.revenue);
    }
  }

  /** Only the JavaScript file refuses large uploads: the TypeScript file's errors are all 400s. */
  lemma {:induction false} OnlyJavaScriptLimitsSize(entries: map<string, Entry>, req: Request, now: int)
    ensures Handle(TypeScript, entries, req, now).response.Err? ==> Handle(TypeScript, entries, req, now).response.status == 400
    ensures IsUpload(req) && req.file.Some? && req.file.value.textLength <= MaxTextLength ==>
      Handle(JavaScript, entries, req, now).response.Err? ==> Handle(JavaScript, entries, req, now).response.status == 400
  {
  }

  /**
   * A quarterly read of an empty store forecasts the built-in series:
   * 12600, 14883.75, 16438.28, 18232.59, rising throughout, with no peak or drop.
   */
  lemma {:induction false} FallbackForecastExample(variant: Variant, req: Request, now: int)
    requires !IsUpload(req) && !IsMonthly(req.period)
    ensures var o := Handle(variant, map[], req, now);
      && o.response.Ok?
      && o.response.payload.revenue == FallbackRevenue
      && o.response.payload.forecast == [12600.0, 14883.75, 16438.28, 18232.59]
      && o.response.payload.trends == [Stable, Up, Up, Up]
      && o.response.payload.peaks == [] && o.response.payload.drops == []
  {
    QuarterlyFallbackExample();
  }
}
