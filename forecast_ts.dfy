/**
 * The TypeScript handler file: cells are sanitised to `[0-9.-]` before
 * parseFloat, and the upload has no size limit.
 */
module ForecastTs {
  import opened Wrappers
  import opened JsNumbers
  import opened Ingest
  import opened KvStore
  import opened Orchestrator

  /** The `parsed.forEach` loop with its inner loop over the column aliases. */
  method ExtractRevenue(parsed: seq<Row>) returns (revenue: seq<real>)
    ensures revenue == Extracted(TypeScript, parsed)
  {
    revenue := [];
    var r := 0;
    while r < |parsed|
      invariant 0 <= r <= |parsed|
      invariant revenue == Extracted(TypeScript, parsed[..r])
    {
      var row := parsed[r];
      ExtractedSnoc(TypeScript, parsed, r);
      var c := 0;
      while c < |RevenueColumns|
        invariant 0 <= c <= |RevenueColumns|
        invariant revenue == Extracted(TypeScript, parsed[..r])
        invariant RowValue(TypeScript, row) == FirstValue(TypeScript, row, RevenueColumns[c..])
      {
        var col := RevenueColumns[c];
        FirstValueStep(TypeScript, row, RevenueColumns, c);
        if col in row && row[col] != "" {
          var num := ParseFloat(Sanitise(row[col]));
          if num.Some? {
            revenue := revenue + [num.value];
            break;
          }
        }
        c := c + 1;
      }
      r := r + 1;
    }
    assert parsed[..r] == parsed;
  }

  /** `handleForecast` as the TypeScript file writes it. */
  method HandleForecast(store: Store<Entry>, req: Request, now: int) returns (response: Response)
    modifies store
    ensures Outcome(response, store.entries) == Handle(TypeScript, old(store.entries), req, now)
  {
    if req.httpMethod == "POST" && req.pathname == UploadPath {
      if req.file.None? {
        return Err(400, NoFileError);
      }
      var file := req.file.value;
      if file.csv.Unparseable? {
        return Err(400, ParseFailedError);
      }
      var parsed := file.csv.rows;
      if |parsed| == 0 {
        return Err(400, EmptyCsvError);
      }
      var revenue := ExtractRevenue(parsed);
      if |revenue| == 0 {
        return Err(400, NoRevenueError);
      }
      store.Put(RawDataKey, RevenueDoc(Numbers(revenue)));
      response := Regenerate(store, revenue, IsMonthly(req.period), Some(UploadMessage), now);
      return;
    }
    var raw := store.Get(RawDataKey);
    var revenue: seq<real>;
    if raw.None? || raw.value == EmptyText {
      revenue := FallbackRevenue;
    } else if raw.value.RevenueDoc? && raw.value.revenue.Numbers? && |raw.value.revenue.values| > 0 {
      revenue := raw.value.revenue.values;
    } else {
      return Err(400, NoDataError);
    }
    response := Regenerate(store, revenue, IsMonthly(req.period), None, now);
  }
}
