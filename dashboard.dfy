// One press of the "analyse" button: normalise the ticker, fetch two years of
// daily history, and build the summary, the two tables and the chart data.

module Dashboard {
  import opened Calendar
  import opened PriceSeries
  import opened Ticker
  import opened TrailingReturns
  import opened MovingAverages

  /** Daily history as the data provider hands it over: one observation per
      trading day in ascending date order, with positive closes. */
  type History = s: Series | Valid(s) witness []

  /** What the provider answers for a ticker: a (possibly empty) history, or
      an error raised while fetching. */
  datatype FetchResult = Fetched(history: History) | ProviderError(message: string)

  /** What the page shows after the button is (or is not) pressed. */
  datatype Outcome =
    | Idle
    | MissingTicker
    | NoData(ticker: string)
    | Failed(ticker: string, message: string)
    | Report(ticker: string, latestDate: CalendarDate, latestPrice: real,
             returnRows: seq<ReturnRow>, averageRows: seq<AverageRow>, chart: seq<real>)

  /** What one press (or no press) of the button leads to, for the text
      typed into the sidebar; `fetch` stands for the provider's two-year
      history request. */
  function PageFor(input: string, run: bool, fetch: string -> FetchResult): Outcome {
    var ticker := Normalize(input);
    if !run then Idle
    else if ticker == [] then MissingTicker
    else
      match fetch(ticker)
      case ProviderError(msg) => Failed(ticker, msg)
      case Fetched(s) =>
        if |s| == 0 then NoData(ticker)
        else Report(ticker, Last(s).date, Last(s).close,
                    ReturnRows(s, Targets(Last(s).date)), Averages(s), ChartTail(s))
  }

  /** The warning for a missing ticker appears exactly when the button is
      pressed on blank input, and nothing is fetched then. */
  lemma MissingTickerIff(input: string, run: bool, fetch: string -> FetchResult)
    ensures PageFor(input, run, fetch) == MissingTicker <==> run && IsBlank(input)
  {
    NormalizeEmptyIff(input);
  }

  /** Nothing is shown until the button is pressed. */
  lemma IdleIff(input: string, run: bool, fetch: string -> FetchResult)
    ensures PageFor(input, run, fetch) == Idle <==> !run
  {
  }

  /** The provider's error is shown, with its message, exactly when the
      button is pressed on a non-blank ticker and the provider fails. */
  lemma FailedIff(input: string, run: bool, fetch: string -> FetchResult)
    ensures PageFor(input, run, fetch).Failed? <==>
      run && !IsBlank(input) && fetch(Normalize(input)).ProviderError?
    ensures PageFor(input, run, fetch).Failed? ==>
      PageFor(input, run, fetch).message == fetch(Normalize(input)).message
  {
    NormalizeEmptyIff(input);
  }

  /** "No data" is shown, with no tables and no chart, exactly when the
      button is pressed on a non-blank ticker and the provider returns an
      empty history. */
  lemma NoDataIff(input: string, run: bool, fetch: string -> FetchResult)
    ensures PageFor(input, run, fetch).NoData? <==>
      run && !IsBlank(input) && fetch(Normalize(input)).Fetched? && |fetch(Normalize(input)).history| == 0
  {
    NormalizeEmptyIff(input);
  }

  /** A press on a non-blank ticker whose history is non-empty always gives
      a report: the converse of ReportSource. */
  lemma ReportWhen(input: string, run: bool, fetch: string -> FetchResult)
    requires run && !IsBlank(input)
    requires fetch(Normalize(input)).Fetched? && |fetch(Normalize(input)).history| > 0
    ensures PageFor(input, run, fetch).Report?
  {
    NormalizeEmptyIff(input);
  }

  /** A report is for a non-empty upper-case ticker and the provider's
      non-empty history of it, whose last observation it shows. */
  lemma ReportSource(input: string, run: bool, fetch: string -> FetchResult)
    requires PageFor(input, run, fetch).Report?
    ensures run && !IsBlank(input)
    ensures
      var out := PageFor(input, run, fetch);
      && out.ticker == Normalize(input) && out.ticker != [] && IsUpperCase(out.ticker)
      && fetch(out.ticker).Fetched? && |fetch(out.ticker).history| > 0
      && out.latestDate == Last(fetch(out.ticker).history).date
      && out.latestPrice == Last(fetch(out.ticker).history).close
  {
    NormalizeEmptyIff(input);
    NormalizeIsUpperCase(input);
  }

  /** The tables and chart built from a non-empty history: at most one
      return row per month in month order, one average row per filled window
      in window order, and a chart ending at the latest close. */
  lemma TablesShape(s: History)
    requires |s| > 0
    ensures |ReturnRows(s, Targets(Last(s).date))| <= MonthsBack
    ensures MonthsIncreasing(ReturnRows(s, Targets(Last(s).date)))
    ensures |Averages(s)| <= |Windows| && DaysIncreasing(Averages(s))
    ensures 0 < |ChartTail(s)| <= ChartDays && ChartTail(s)[|ChartTail(s)| - 1] == Last(s).close
  {
    ReturnRowsOrdered(s, Targets(Last(s).date));
    AveragesCount(s, |Windows|);
    AveragesOrdered(s, |Windows|);
  }

  /** A report's tables and chart have the shapes TablesShape proves. */
  lemma ReportShape(input: string, run: bool, fetch: string -> FetchResult)
    requires PageFor(input, run, fetch).Report?
    ensures
      var out := PageFor(input, run, fetch);
      && |out.returnRows| <= MonthsBack && MonthsIncreasing(out.returnRows)
      && |out.averageRows| <= |Windows| && DaysIncreasing(out.averageRows)
      && 0 < |out.chart| <= ChartDays
      && out.chart[|out.chart| - 1] == out.latestPrice
  {
    TablesShape(fetch(Normalize(input)).history);
  }

  /** Runs the analysis as the script does, building the two tables with
      their loops. */
  method Analyze(input: string, run: bool, fetch: string -> FetchResult) returns (out: Outcome)
    ensures out == PageFor(input, run, fetch)
  {
    if !run {
      return Idle;
    }
    var ticker := Normalize(input);
    if ticker == [] {
      return MissingTicker;
    }
    match fetch(ticker)
    case ProviderError(msg) =>
      out := Failed(ticker, msg);
    case Fetched(s) =>
      if |s| == 0 {
        out := NoData(ticker);
      } else {
        var latest := Last(s);
        var returnRows := ReturnTable(s);
        var averageRows := AverageTable(s);
        out := Report(ticker, latest.date, latest.close, returnRows, averageRows, ChartTail(s));
      }
  }
}
