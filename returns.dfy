// The trailing-return table: for each i from 1 to 12, the close of the last
// trading day on or before "i months before the latest date" is compared with
// the latest close, provided that day is at most 15 days before the target.

module TrailingReturns {
  import opened Options
  import opened Calendar
  import opened PriceSeries

  const MonthsBack := 12

  /** A located observation further than this before the target is stale. */
  const MaxGapDays := 15

  /** 🔥 for a strictly positive return, 💧 otherwise. */
  datatype Flag = Fire | Droplet

  datatype ReturnRow = ReturnRow(monthsAgo: nat, ret: real, flag: Flag)

  /** Relative change from a past close to the latest one: latest/past - 1. */
  function Return(latest: real, past: real): (r: real)
    requires past > 0.0
    ensures r > 0.0 <==> latest > past
    ensures r == 0.0 <==> latest == past
  {
    latest / past - 1.0
  }

  function FlagOf(ret: real): Flag {
    if ret > 0.0 then Fire else Droplet
  }

  /** Day numbers of the dates 1, 2, ..., 12 months before the latest date:
      the month-i target is at index i - 1. */
  function Targets(latest: CalendarDate): (t: seq<int>)
    ensures |t| == MonthsBack
  {
    seq(MonthsBack, k requires 0 <= k < MonthsBack => Ordinal(MonthsBefore(latest, k + 1)))
  }

  lemma TargetIs(latest: CalendarDate, k: nat)
    requires k < MonthsBack
    ensures Targets(latest)[k] == Ordinal(MonthsBefore(latest, k + 1))
  {
  }

  lemma TargetBeforeLatest(latest: CalendarDate, k: nat)
    requires k < MonthsBack
    ensures Targets(latest)[k] < Ordinal(latest)
  {
    TargetIs(latest, k);
    MonthsBeforeIsEarlier(latest, k + 1);
  }

  /** Every target lies strictly before the latest date, so the latest
      trading day is never the one a row is priced against. */
  lemma TargetsBeforeLatest(latest: CalendarDate)
    ensures forall k :: 0 <= k < MonthsBack ==> Targets(latest)[k] < Ordinal(latest)
  {
    forall k | 0 <= k < MonthsBack
      ensures Targets(latest)[k] < Ordinal(latest)
    {
      TargetBeforeLatest(latest, k);
    }
  }

  /** The row for month i, whose target date has day number `target`, if one
      is emitted. */
  function RowAt(s: Series, i: nat, target: int): (r: Option<ReturnRow>)
    requires Valid(s) && |s| > 0
    ensures r.Some? ==> r.value.monthsAgo == i
  {
    match LastOnOrBefore(s, target)
    case None => None
    case Some(k) =>
      if target - Ordinal(s[k].date) <= MaxGapDays then
        var ret := Return(Last(s).close, s[k].close);
        Some(ReturnRow(i, ret, FlagOf(ret)))
      else None
  }

  /** A row is emitted exactly when some trading day falls in the 15 days up
      to and including the target date. */
  lemma RowEmittedIff(s: Series, i: nat, target: int)
    requires Valid(s) && |s| > 0
    ensures RowAt(s, i, target).Some? <==>
      exists k :: 0 <= k < |s| && target - MaxGapDays <= Ordinal(s[k].date) <= target
  {
    match LastOnOrBefore(s, target)
    case None =>
    case Some(k) =>
      if target - Ordinal(s[k].date) > MaxGapDays {
        forall j | 0 <= j < |s| && Ordinal(s[j].date) <= target
          ensures Ordinal(s[j].date) < target - MaxGapDays
        {
          StaleBefore(s, j, k);
        }
      }
  }

  /** On an ascending series an index not after k is dated no later. */
  lemma StaleBefore(s: Series, j: nat, k: nat)
    requires Ascending(s) && j <= k < |s|
    ensures Ordinal(s[j].date) <= Ordinal(s[k].date)
  {
  }

  /** An emitted row compares the latest close with the close of the latest
      trading day on or before the target, which is not the latest day when
      the target lies before it; the flag is 🔥 exactly when the latest close
      is higher. */
  lemma RowValue(s: Series, i: nat, target: int)
    requires Valid(s) && |s| > 0 && target < Ordinal(Last(s).date)
    requires RowAt(s, i, target).Some?
    ensures exists k ::
      && 0 <= k < |s| - 1
      && Ordinal(s[k].date) <= target
      && (forall j :: 0 <= j < |s| && Ordinal(s[j].date) <= target ==> j <= k)
      && RowAt(s, i, target).value.ret == Last(s).close / s[k].close - 1.0
      && (RowAt(s, i, target).value.flag == Fire <==> Last(s).close > s[k].close)
  {
    var k := LastOnOrBefore(s, target).value;
    assert k < |s| - 1;
    forall j | 0 <= j < |s| && Ordinal(s[j].date) <= target
      ensures j <= k
    {
    }
  }

  /** The row is priced against the close LastOnOrBefore finds for the
      target: that day lies within the gap and is not the latest day, the
      return compares the latest close with its close, and the flag is 🔥
      exactly when the latest close is higher. */
  predicate PricedAt(s: Series, target: int, row: ReturnRow)
    requires Valid(s) && |s| > 0
  {
    && LastOnOrBefore(s, target).Some?
    && var p := LastOnOrBefore(s, target).value;
       && p < |s| - 1
       && target - Ordinal(s[p].date) <= MaxGapDays
       && row.ret == Last(s).close / s[p].close - 1.0
       && (row.flag == Fire <==> Last(s).close > s[p].close)
  }

  /** An emitted row for a target before the latest date is priced as
      PricedAt says. */
  lemma RowPrice(s: Series, i: nat, target: int)
    requires Valid(s) && |s| > 0 && target < Ordinal(Last(s).date)
    requires RowAt(s, i, target).Some?
    ensures PricedAt(s, target, RowAt(s, i, target).value)
  {
  }

  /** The script's own reading of a row: truncate the series at the target
      and look at the last observation left. It agrees with RowAt. */
  lemma RowFromTruncate(s: Series, i: nat, target: int)
    requires Valid(s) && |s| > 0
    ensures Truncate(s, target) == [] ==> RowAt(s, i, target).None?
    ensures Truncate(s, target) != [] ==>
      var past := Last(Truncate(s, target));
      RowAt(s, i, target) ==
        if target - Ordinal(past.date) <= MaxGapDays then
          Some(ReturnRow(i, Return(Last(s).close, past.close), FlagOf(Return(Last(s).close, past.close))))
        else None
  {
    TruncateLast(s, target);
  }

  /** For each month i = k + 1, the row it calls for, if any. */
  function Candidates(s: Series, targets: seq<int>): (c: seq<Option<ReturnRow>>)
    requires Valid(s) && |s| > 0
    ensures |c| == |targets|
  {
    seq(|targets|, k requires 0 <= k < |targets| => RowAt(s, k + 1, targets[k]))
  }

  /** The rows emitted by the first n candidates, in month order, skipping
      the months without one. */
  function Collect(cands: seq<Option<ReturnRow>>, n: nat): seq<ReturnRow>
    requires n <= |cands|
  {
    if n == 0 then [] else Collect(cands, n - 1) + Emitted(cands[n - 1])
  }

  function Emitted(row: Option<ReturnRow>): seq<ReturnRow> {
    match row
    case Some(r) => [r]
    case None => []
  }

  /** The return table for the given month targets. */
  function ReturnRows(s: Series, targets: seq<int>): seq<ReturnRow>
    requires Valid(s) && |s| > 0
  {
    var cands := Candidates(s, targets);
    Collect(cands, |cands|)
  }

  /** Each candidate carries its own month number. */
  predicate Numbered(cands: seq<Option<ReturnRow>>) {
    forall k :: 0 <= k < |cands| && cands[k].Some? ==> cands[k].value.monthsAgo == k + 1
  }

  predicate MonthsIncreasing(rows: seq<ReturnRow>) {
    forall j, k :: 0 <= j < k < |rows| ==> rows[j].monthsAgo < rows[k].monthsAgo
  }

  /** Collecting numbered candidates gives at most one row per month, every
      month within range, in strictly increasing order of months, and each
      row is the candidate of its month. */
  lemma {:induction false} CollectShape(cands: seq<Option<ReturnRow>>, n: nat)
    requires n <= |cands| && Numbered(cands)
    ensures |Collect(cands, n)| <= n
    ensures MonthsIncreasing(Collect(cands, n))
    ensures forall k :: 0 <= k < |Collect(cands, n)| ==>
      && 1 <= Collect(cands, n)[k].monthsAgo <= n
      && cands[Collect(cands, n)[k].monthsAgo - 1] == Some(Collect(cands, n)[k])
  {
    if n > 0 {
      CollectShape(cands, n - 1);
    }
  }

  /** Collecting drops no emitted candidate. */
  lemma {:induction false} CollectComplete(cands: seq<Option<ReturnRow>>, n: nat)
    requires n <= |cands|
    ensures forall k :: 0 <= k < n && cands[k].Some? ==> cands[k].value in Collect(cands, n)
  {
    if n > 0 {
      CollectComplete(cands, n - 1);
    }
  }

  lemma CandidateIs(s: Series, targets: seq<int>, k: nat)
    requires Valid(s) && |s| > 0 && k < |targets|
    ensures Candidates(s, targets)[k] == RowAt(s, k + 1, targets[k])
  {
  }

  lemma CandidatesNumbered(s: Series, targets: seq<int>)
    requires Valid(s) && |s| > 0
    ensures Numbered(Candidates(s, targets))
  {
  }

  lemma CandidateAt(s: Series, i: nat)
    requires Valid(s) && |s| > 0 && 1 <= i <= MonthsBack
    ensures Candidates(s, Targets(Last(s).date))[i - 1] == RowAt(s, i, Ordinal(MonthsBefore(Last(s).date, i)))
  {
    TargetIs(Last(s).date, i - 1);
    CandidateIs(s, Targets(Last(s).date), i - 1);
  }

  /** The table has at most one row per month, every month in range, in
      strictly increasing order. */
  lemma ReturnRowsOrdered(s: Series, targets: seq<int>)
    requires Valid(s) && |s| > 0
    ensures |ReturnRows(s, targets)| <= |targets|
    ensures MonthsIncreasing(ReturnRows(s, targets))
    ensures forall k :: 0 <= k < |ReturnRows(s, targets)| ==> 1 <= ReturnRows(s, targets)[k].monthsAgo <= |targets|
  {
    var cands := Candidates(s, targets);
    CandidatesNumbered(s, targets);
    CollectShape(cands, |cands|);
  }

  /** Every row of the table is the row its month calls for. */
  lemma ReturnRowsSound(s: Series, targets: seq<int>)
    requires Valid(s) && |s| > 0
    ensures forall k :: 0 <= k < |ReturnRows(s, targets)| ==>
      var m := ReturnRows(s, targets)[k].monthsAgo;
      1 <= m <= |targets| && RowAt(s, m, targets[m - 1]) == Some(ReturnRows(s, targets)[k])
  {
    var cands := Candidates(s, targets);
    CandidatesNumbered(s, targets);
    CollectShape(cands, |cands|);
    var rows := ReturnRows(s, targets);
    forall k | 0 <= k < |rows|
      ensures 1 <= rows[k].monthsAgo <= |targets|
      ensures RowAt(s, rows[k].monthsAgo, targets[rows[k].monthsAgo - 1]) == Some(rows[k])
    {
      CandidateIs(s, targets, rows[k].monthsAgo - 1);
    }
  }

  /** Every month that calls for a row has that row in the table. */
  lemma ReturnRowsComplete(s: Series, targets: seq<int>)
    requires Valid(s) && |s| > 0
    ensures forall k :: 0 <= k < |targets| && RowAt(s, k + 1, targets[k]).Some? ==>
      RowAt(s, k + 1, targets[k]).value in ReturnRows(s, targets)
  {
    var cands := Candidates(s, targets);
    CollectComplete(cands, |cands|);
    forall k | 0 <= k < |targets| && RowAt(s, k + 1, targets[k]).Some?
      ensures RowAt(s, k + 1, targets[k]).value in ReturnRows(s, targets)
    {
      CandidateIs(s, targets, k);
    }
  }

  /** Every row of the table for the twelve month targets compares the
      latest close with the close of the last trading day on or before its
      month's target, at most 15 days before it and never the latest day; the
      flag is 🔥 exactly when the latest close is higher. */
  lemma ReturnRowsPrices(s: Series)
    requires Valid(s) && |s| > 0
    ensures
      var targets := Targets(Last(s).date);
      var rows := ReturnRows(s, targets);
      forall k :: 0 <= k < |rows| ==>
        1 <= rows[k].monthsAgo <= MonthsBack && PricedAt(s, targets[rows[k].monthsAgo - 1], rows[k])
  {
    var targets := Targets(Last(s).date);
    TargetsBeforeLatest(Last(s).date);
    forall k | 0 <= k < |ReturnRows(s, targets)|
      ensures
        var row := ReturnRows(s, targets)[k];
        1 <= row.monthsAgo <= MonthsBack && PricedAt(s, targets[row.monthsAgo - 1], row)
    {
      TableRowPriced(s, targets, k);
    }
  }

  /** Row k of the table for any targets before the latest date is priced
      against its month's target. */
  lemma TableRowPriced(s: Series, targets: seq<int>, k: nat)
    requires Valid(s) && |s| > 0
    requires forall j :: 0 <= j < |targets| ==> targets[j] < Ordinal(Last(s).date)
    requires k < |ReturnRows(s, targets)|
    ensures
      var row := ReturnRows(s, targets)[k];
      1 <= row.monthsAgo <= |targets| && PricedAt(s, targets[row.monthsAgo - 1], row)
  {
    ReturnRowsSound(s, targets);
    var row := ReturnRows(s, targets)[k];
    RowPrice(s, row.monthsAgo, targets[row.monthsAgo - 1]);
  }

  /** Builds the table as the script's loop does: month by month, appending
      the row each month calls for. */
  method ReturnTable(s: Series) returns (rows: seq<ReturnRow>)
    requires Valid(s) && |s| > 0
    ensures rows == ReturnRows(s, Targets(Last(s).date))
    ensures |rows| <= MonthsBack && MonthsIncreasing(rows)
    ensures forall k :: 0 <= k < |rows| ==> 1 <= rows[k].monthsAgo <= MonthsBack
  {
    var latest := Last(s);
    ghost var cands := Candidates(s, Targets(latest.date));
    rows := [];
    for i := 1 to MonthsBack + 1
      invariant rows == Collect(cands, i - 1)
    {
      var target := Ordinal(MonthsBefore(latest.date, i));
      var row := RowAt(s, i, target);
      CandidateAt(s, i);
      if row.Some? {
        rows := rows + [row.value];
      }
    }
    ReturnRowsOrdered(s, Targets(latest.date));
  }
}
