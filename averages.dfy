// The moving-average table: for each window of 20, 40, ..., 200 trading
// days that the history is long enough to fill, the mean of the last closes
// in the window and whether the latest close sits at or above it.

module MovingAverages {
  import opened Options
  import opened Calendar
  import opened PriceSeries

  const Windows: seq<nat> := [20, 40, 60, 80, 100, 120, 140, 160, 180, 200]

  /** "상승 (정배열)" when the latest close is at or above the average,
      "하락 (역배열)" otherwise. */
  datatype Trend = Uptrend | Downtrend

  datatype AverageRow = AverageRow(days: nat, average: real, trend: Trend)

  function Sum(xs: seq<real>): real {
    if xs == [] then 0.0 else Sum(xs[..|xs| - 1]) + xs[|xs| - 1]
  }

  /** Arithmetic mean, as `Series.mean()` computes it on a series without
      missing values. */
  function Mean(xs: seq<real>): real
    requires |xs| > 0
  {
    Sum(xs) / (|xs| as real)
  }

  lemma {:induction false} SumAtMost(xs: seq<real>, hi: real)
    requires forall k :: 0 <= k < |xs| ==> xs[k] <= hi
    ensures Sum(xs) <= (|xs| as real) * hi
  {
    if xs != [] {
      SumAtMost(xs[..|xs| - 1], hi);
    }
  }

  lemma {:induction false} SumAtLeast(xs: seq<real>, lo: real)
    requires forall k :: 0 <= k < |xs| ==> lo <= xs[k]
    ensures (|xs| as real) * lo <= Sum(xs)
  {
    if xs != [] {
      SumAtLeast(xs[..|xs| - 1], lo);
    }
  }

  /** A mean lies between the smallest and the largest of its values. */
  lemma MeanBounds(xs: seq<real>, lo: real, hi: real)
    requires |xs| > 0
    requires forall k :: 0 <= k < |xs| ==> lo <= xs[k] <= hi
    ensures lo <= Mean(xs) <= hi
  {
    SumAtMost(xs, hi);
    SumAtLeast(xs, lo);
    assert Mean(xs) * (|xs| as real) == Sum(xs);
  }

  lemma MeanAtMost(xs: seq<real>, hi: real)
    requires |xs| > 0
    requires forall k :: 0 <= k < |xs| ==> xs[k] <= hi
    ensures Mean(xs) <= hi
  {
    SumAtMost(xs, hi);
    assert Mean(xs) * (|xs| as real) == Sum(xs);
  }

  /** The last `days` closes: `price.tail(days)`. */
  function Tail(s: Series, days: nat): (t: seq<real>)
    requires days <= |s|
    ensures |t| == days
    ensures forall k :: 0 <= k < days ==> t[k] == s[|s| - days + k].close
  {
    Closes(s)[|s| - days..]
  }

  function TrendOf(latest: real, average: real): Trend {
    if latest >= average then Uptrend else Downtrend
  }

  /** The row for a window of `days` trading days, if the history fills it. */
  function AverageRowFor(s: Series, days: nat): (r: Option<AverageRow>)
    requires |s| > 0 && days > 0
    ensures r.Some? <==> days <= |s|
    ensures r.Some? ==> r.value.days == days
  {
    if |s| >= days then
      var average := Mean(Tail(s, days));
      Some(AverageRow(days, average, TrendOf(Last(s).close, average)))
    else None
  }

  /** The rows for the first n windows, in window order. */
  function AveragesUpTo(s: Series, n: nat): seq<AverageRow>
    requires |s| > 0 && n <= |Windows|
  {
    if n == 0 then []
    else
      AveragesUpTo(s, n - 1) +
        match AverageRowFor(s, Windows[n - 1])
        case Some(row) => [row]
        case None => []
  }

  /** One more window adds its row, if the history fills it. */
  lemma AveragesStep(s: Series, n: nat)
    requires |s| > 0 && n < |Windows|
    ensures |s| >= Windows[n] ==> AveragesUpTo(s, n + 1) == AveragesUpTo(s, n) + [AverageRowFor(s, Windows[n]).value]
    ensures |s| < Windows[n] ==> AveragesUpTo(s, n + 1) == AveragesUpTo(s, n)
  {
  }

  function Averages(s: Series): seq<AverageRow>
    requires |s| > 0
  {
    AveragesUpTo(s, |Windows|)
  }

  lemma WindowsAreMultiples()
    ensures forall k :: 0 <= k < |Windows| ==> Windows[k] == 20 * (k + 1)
  {
  }

  /** Each window the history is long enough for gives one row: the first n
      windows give min(n, |s| / 20) rows. */
  lemma {:induction false} AveragesCount(s: Series, n: nat)
    requires |s| > 0 && n <= |Windows|
    ensures |AveragesUpTo(s, n)| == Min(n, |s| / 20)
  {
    if n > 0 {
      AveragesCount(s, n - 1);
      WindowsAreMultiples();
      assert Windows[n - 1] <= |s| <==> n <= |s| / 20;
    }
  }

  predicate DaysIncreasing(rows: seq<AverageRow>) {
    forall j, k :: 0 <= j < k < |rows| ==> rows[j].days < rows[k].days
  }

  /** Rows come in strictly increasing window order, none past the n-th
      window. */
  lemma {:induction false} AveragesOrdered(s: Series, n: nat)
    requires |s| > 0 && n <= |Windows|
    ensures DaysIncreasing(AveragesUpTo(s, n))
    ensures forall k :: 0 <= k < |AveragesUpTo(s, n)| ==> AveragesUpTo(s, n)[k].days <= 20 * n
  {
    if n > 0 {
      AveragesOrdered(s, n - 1);
      WindowsAreMultiples();
    }
  }

  /** Each row is for a window of the fixed list that the history fills, and
      is the row for that window. */
  lemma {:induction false} AveragesSound(s: Series, n: nat)
    requires |s| > 0 && n <= |Windows|
    ensures forall k :: 0 <= k < |AveragesUpTo(s, n)| ==>
      var row := AveragesUpTo(s, n)[k];
      row.days in Windows && row.days <= |s| && AverageRowFor(s, row.days) == Some(row)
  {
    if n > 0 {
      AveragesSound(s, n - 1);
    }
  }

  /** Every window of the fixed list that the history fills has its row. */
  lemma {:induction false} AveragesComplete(s: Series, n: nat)
    requires |s| > 0 && n <= |Windows|
    ensures forall k :: 0 <= k < n && Windows[k] <= |s| ==>
      AverageRowFor(s, Windows[k]).value in AveragesUpTo(s, n)
  {
    if n > 0 {
      AveragesComplete(s, n - 1);
    }
  }

  /** A row for a window of d days is present exactly when d is one of the
      fixed windows and the history holds at least d closes. */
  lemma AverageRowPresentIff(s: Series, d: nat)
    requires |s| > 0
    ensures (exists k :: 0 <= k < |Averages(s)| && Averages(s)[k].days == d) <==> d in Windows && d <= |s|
  {
    AveragesSound(s, |Windows|);
    AveragesComplete(s, |Windows|);
    if d in Windows && d <= |s| {
      var k :| 0 <= k < |Windows| && Windows[k] == d;
      var row := AverageRowFor(s, d).value;
      assert row in Averages(s);
      var j :| 0 <= j < |Averages(s)| && Averages(s)[j] == row;
    }
  }

  /** The average is the mean of exactly the last `days` closes, and the row
      says uptrend exactly when the latest close is at or above it. */
  lemma AverageRowMeaning(s: Series, days: nat)
    requires |s| > 0 && 0 < days <= |s|
    ensures AverageRowFor(s, days).value.average == Sum(Closes(s)[|s| - days..]) / (days as real)
    ensures AverageRowFor(s, days).value.trend == Uptrend <==> Last(s).close >= AverageRowFor(s, days).value.average
  {
  }

  /** A latest close at least as high as every close in the window is an
      uptrend; in particular a flat window is one. */
  lemma HighestCloseIsUptrend(s: Series, days: nat)
    requires |s| > 0 && 0 < days <= |s|
    requires forall k :: |s| - days <= k < |s| ==> s[k].close <= Last(s).close
    ensures AverageRowFor(s, days).value.trend == Uptrend
  {
    MeanAtMost(Tail(s, days), Last(s).close);
  }

  /** Builds the table as the script's loop does: window by window, appending
      a row when the history holds enough closes. */
  method AverageTable(s: Series) returns (rows: seq<AverageRow>)
    requires |s| > 0
    ensures rows == Averages(s)
    ensures |rows| == Min(|Windows|, |s| / 20)
    ensures DaysIncreasing(rows)
  {
    var latest := Last(s).close;
    rows := [];
    for j := 0 to |Windows|
      invariant rows == AveragesUpTo(s, j)
    {
      var days := Windows[j];
      AveragesStep(s, j);
      if |s| >= days {
        var average := Mean(Tail(s, days));
        var isUp := latest >= average;
        rows := rows + [AverageRow(days, average, if isUp then Uptrend else Downtrend)];
      }
    }
    AveragesCount(s, |Windows|);
    AveragesOrdered(s, |Windows|);
  }
}
