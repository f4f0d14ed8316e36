/**
 * The JavaScript handler file: truthy cells go to parseFloat as they are,
 * and text longer than 1 MB is refused before it is parsed.
 */
module ForecastJs {
  import opened Wrappers
  import opened JsNumbers
  import opened Ingest
  import opened KvStore
  import opened Orchestrator

  /** The `parsed.forEach` loop with its inner loop over the column aliases. */
  method ExtractRevenue(parsed: seq<Row>) returns (revenue: seq<real>)
    ensures revenue == Extracted(JavaScript, parsed)
  {
    revenue := [];
    var r := 0;
    while r < |parsed|
      invariant 0 <= r <= |parsed|
      invariant revenue == Extracted(JavaScript, parsed[..r])
    {
      var row := parsed[r];
      ExtractedSnoc(JavaScript, parsed, r);
      var c := 0;
      while c < |RevenueColumns|
        invariant 0 <= c <= |RevenueColumns|
        invariant revenue == Extracted(JavaScript, parsed[..r])
        invariant RowValue(JavaScript, row) == FirstValue(JavaScript, row, RevenueColumns[c..])
      {
        var col := RevenueColumns[c];
        FirstValueStep(JavaScript, row, RevenueColumns, c);
        // `if (val)`: a missing key is `undefined`, and "" is the only falsy string
        if col in row && row[col] != "" {
          var num := ParseFloat(row[col]);
          if num.Some? {
            revenue := revenue + [num.value];
            break;
          }
        }
        c := c + 1;
      }
      r := r + 1;
    }
    assert parsed[..r] == parsed;
  }

  /** `handleForecast` as the JavaScript file writes it, with the size guard. */
  method HandleForecast(store: Store<Entry>, req: Request, now: int) returns (response: Response)
    modifies store
    ensures Outcome(response, store.entries) == Handle(JavaScript, old(store.entries), req, now)
  {
    if req.httpMethod == "POST" && req.pathname == UploadPath {
      if req.file.None? {
        return Err(400, NoFileError);
      }
      var file := req.file.value;
      if file.textLength > MaxTextLength {
        return Err(413, TooLargeError);
      }
      if file.csv.Unparseable? {
        return Err(400, ParseFailedError);
      }
      var parsed := file.csv.rows;
      if |parsed| == 0 {
        return Err(400, EmptyCsvError);
      }
      var revenue := ExtractRevenue(parsed);
      if |revenue| == 0 {
        return Err(400, NoRevenueError);
      }
      store.Put(RawDataKey, RevenueDoc(Numbers(revenue)));
      response := Regenerate(store, revenue, IsMonthly(req.period), Some(UploadMessage), now);
      return;
    }
    var raw := store.Get(RawDataKey);
    var revenue: seq<real>;
    if raw.None? || raw.value == EmptyText {
      revenue := FallbackRevenue;
    } else if raw.value.RevenueDoc? && raw.value.revenue.Numbers? && |raw.value.revenue.values| > 0 {
      revenue := raw.value.revenue.values;
    } else {
      return Err(400, NoDataError);
    }
    response := Regenerate(store, revenue, IsMonthly(req.period), None, now);
  }
}
