// The closing-price history the dashboard works on: daily observations in
// ascending date order, and the two ways the script reads it besides the
// metric tables: looking up the last observation on or before a date
// (`price.truncate(after=...)`) and the tail shown on the chart.

module PriceSeries {
  import opened Options
  import opened Calendar

  datatype Observation = Observation(date: CalendarDate, close: real)

  type Series = seq<Observation>

  /** Trading days appear once each, in ascending order, and every close is a
      positive price. */
  predicate Valid(s: Series) {
    PositiveCloses(s) && Ascending(s)
  }

  predicate PositiveCloses(s: Series) {
    forall k :: 0 <= k < |s| ==> s[k].close > 0.0
  }

  predicate Ascending(s: Series) {
    forall j, k :: 0 <= j < k < |s| ==> Ordinal(s[j].date) < Ordinal(s[k].date)
  }

  function Last(s: Series): Observation
    requires |s| > 0
  {
    s[|s| - 1]
  }

  function Closes(s: Series): (c: seq<real>)
    ensures |c| == |s|
    ensures forall k :: 0 <= k < |s| ==> c[k] == s[k].close
  {
    seq(|s|, k requires 0 <= k < |s| => s[k].close)
  }

  /** Index of the last observation dated on or before day t, if any. */
  function LastOnOrBefore(s: Series, t: int): (r: Option<nat>)
    ensures r.Some? ==> r.value < |s| && Ordinal(s[r.value].date) <= t
    ensures r.Some? ==> forall j :: r.value < j < |s| ==> Ordinal(s[j].date) > t
    ensures r.None? <==> forall j :: 0 <= j < |s| ==> Ordinal(s[j].date) > t
  {
    if |s| == 0 then None
    else if Ordinal(Last(s).date) <= t then Some(|s| - 1)
    else LastOnOrBefore(s[..|s| - 1], t)
  }

  /** The observations dated on or before day t, in order: what
      `truncate(after=t)` keeps. */
  function Truncate(s: Series, t: int): (r: Series)
    ensures PositiveCloses(s) ==> PositiveCloses(r)
  {
    if |s| == 0 then []
    else Truncate(s[..|s| - 1], t) + (if Ordinal(Last(s).date) <= t then [Last(s)] else [])
  }

  lemma ValidPrefix(s: Series, n: nat)
    requires Valid(s) && n <= |s|
    ensures Valid(s[..n])
  {
  }

  /** On a valid series, truncation keeps exactly a prefix, and the last
      observation it keeps is the one LastOnOrBefore finds. */
  lemma {:induction false} TruncateIsPrefix(s: Series, t: int)
    requires Valid(s)
    ensures LastOnOrBefore(s, t).None? ==> Truncate(s, t) == []
    ensures LastOnOrBefore(s, t).Some? ==> Truncate(s, t) == s[..LastOnOrBefore(s, t).value + 1]
  {
    if |s| > 0 {
      var init := s[..|s| - 1];
      ValidPrefix(s, |s| - 1);
      TruncateIsPrefix(init, t);
      if Ordinal(Last(s).date) <= t {
        if |s| > 1 {
          assert Ordinal(init[|s| - 2].date) < Ordinal(Last(s).date);
          assert LastOnOrBefore(init, t) == Some(|s| - 2);
          assert Truncate(init, t) == init[..|s| - 1] == init;
        }
        TruncateKeepsLast(s, t);
        assert LastOnOrBefore(s, t) == Some(|s| - 1);
        assert s[..|s|] == s;
      } else {
        TruncateDropsLast(s, t);
      }
    }
  }

  lemma TruncateKeepsLast(s: Series, t: int)
    requires Valid(s) && |s| > 0 && Ordinal(Last(s).date) <= t
    requires Truncate(s[..|s| - 1], t) == []
             || Truncate(s[..|s| - 1], t) == s[..|s| - 1]
    ensures Truncate(s, t) == s
  {
    assert Truncate(s, t) == Truncate(s[..|s| - 1], t) + [Last(s)];
    assert s[..|s| - 1] + [Last(s)] == s;
  }

  lemma TruncateDropsLast(s: Series, t: int)
    requires |s| > 0 && Ordinal(Last(s).date) > t
    ensures Truncate(s, t) == Truncate(s[..|s| - 1], t)
    ensures LastOnOrBefore(s, t) == LastOnOrBefore(s[..|s| - 1], t)
    ensures forall n :: 0 <= n < |s| ==> s[..|s| - 1][..n] == s[..n]
  {
  }

  /** The observation truncate leaves last is the one the script prices
      against, and it is the latest one not after day t. */
  lemma TruncateLast(s: Series, t: int)
    requires Valid(s)
    ensures Truncate(s, t) != [] <==> exists k :: 0 <= k < |s| && Ordinal(s[k].date) <= t
    ensures Truncate(s, t) != [] ==>
      var k := LastOnOrBefore(s, t).value;
      && Last(Truncate(s, t)) == s[k]
      && forall j :: 0 <= j < |s| && Ordinal(s[j].date) <= t ==> j <= k
  {
    TruncateIsPrefix(s, t);
  }

  const ChartDays := 252

  /** The closes drawn on the chart: `price.tail(252)`. */
  function ChartTail(s: Series): (c: seq<real>)
    ensures |c| == if |s| < ChartDays then |s| else ChartDays
    ensures forall k :: 0 <= k < |c| ==> c[k] == s[|s| - |c| + k].close
    ensures |s| <= ChartDays ==> c == Closes(s)
  {
    var n := if |s| < ChartDays then |s| else ChartDays;
    seq(n, k requires 0 <= k < n => s[|s| - n + k].close)
  }
}
