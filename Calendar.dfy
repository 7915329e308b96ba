/** `month_dates`: the five sampled days of a "YYYY-MM" month as ISO dates
    (newsletter.py:27-31), with the Gregorian calendar that `calendar.monthrange`
    and `datetime.date` supply. */
module Calendar {
  import opened Outcomes
  import opened Strings

  datatype YearMonth = YearMonth(year: int, month: int)
  datatype Date = Date(year: int, month: int, day: int)

  /** `calendar.isleap`. */
  predicate IsLeap(y: int)
  {
    y % 4 == 0 && (y % 100 != 0 || y % 400 == 0)
  }

  /** The second value of `calendar.monthrange(y, m)`. */
  function DaysInMonth(y: int, m: int): (n: int)
    requires 1 <= m <= 12
    ensures 28 <= n <= 31
    ensures n == 28 <==> m == 2 && !IsLeap(y)
    ensures n == 29 <==> m == 2 && IsLeap(y)
  {
    if m == 2 then (if IsLeap(y) then 29 else 28)
    else if m == 4 || m == 6 || m == 9 || m == 11 then 30
    else 31
  }

  /** The elements of the set literal `{1, 8, 15, 22, min(29, days)}`. */
  function Picks(days: int): seq<int>
  {
    [1, 8, 15, 22, if days < 29 then days else 29]
  }

  predicate StrictlyIncreasing(s: seq<int>)
  {
    forall i, j :: 0 <= i < j < |s| ==> s[i] < s[j]
  }

  /** Adds `x` to an ascending list of distinct values, unless already there. */
  function InsertDistinct(r: seq<int>, x: int): (t: seq<int>)
    requires StrictlyIncreasing(r)
    ensures StrictlyIncreasing(t)
    ensures forall y :: y in t <==> y in r || y == x
  {
    if r == [] then [x]
    else if x < r[0] then [x] + r
    else if x == r[0] then r
    else
      var rest := InsertDistinct(r[1..], x);
      assert r == [r[0]] + r[1..];
      forall i | 0 <= i < |rest|
        ensures r[0] < rest[i]
      {
        assert rest[i] in rest;
        if rest[i] != x {
          var k :| 0 <= k < |r[1..]| && r[1..][k] == rest[i];
          assert r[k + 1] == rest[i];
        }
      }
      [r[0]] + rest
  }

  /** `sorted(set(xs))`: the distinct values of `xs` in ascending order. */
  function SortedDistinct(xs: seq<int>): (r: seq<int>)
    ensures StrictlyIncreasing(r)
    ensures forall y :: y in r <==> y in xs
  {
    if xs == [] then []
    else
      var r := InsertDistinct(SortedDistinct(xs[..|xs| - 1]), xs[|xs| - 1]);
      assert xs == xs[..|xs| - 1] + [xs[|xs| - 1]];
      r
  }

  /** The sampled days of a month with `days` days: five of them, ascending. */
  lemma SampledDays(days: int)
    requires 28 <= days <= 31
    ensures SortedDistinct(Picks(days)) == Picks(days)
  {
    SortedDistinctOfAscending(Picks(days));
  }

  /** Adding a value above every element appends it. */
  lemma {:induction false} InsertDistinctAbove(r: seq<int>, x: int)
    requires StrictlyIncreasing(r)
    requires forall i :: 0 <= i < |r| ==> r[i] < x
    ensures InsertDistinct(r, x) == r + [x]
  {
    if r != [] {
      var rest := r[1..];
      assert x > r[0];
      assert InsertDistinct(r, x) == [r[0]] + InsertDistinct(rest, x);
      InsertDistinctAbove(rest, x);
      assert r == [r[0]] + rest;
    }
  }

  /** Listings that are already ascending and distinct are left as they are. */
  lemma {:induction false} SortedDistinctOfAscending(xs: seq<int>)
    requires StrictlyIncreasing(xs)
    ensures SortedDistinct(xs) == xs
  {
    if xs != [] {
      var init := xs[..|xs| - 1];
      SortedDistinctOfAscending(init);
      assert forall i :: 0 <= i < |init| ==> init[i] < xs[|xs| - 1];
      InsertDistinctAbove(init, xs[|xs| - 1]);
      assert init + [xs[|xs| - 1]] == xs;
    }
  }

  /** `y, m = map(int, yyyymm.split("-"))`: None where Python raises ValueError. */
  function ParseYearMonth(yyyymm: string): (r: Option<YearMonth>)
    ensures r.Some? <==> |Split(yyyymm, '-')| == 2
                         && ParseInt(Split(yyyymm, '-')[0]).Some?
                         && ParseInt(Split(yyyymm, '-')[1]).Some?
    ensures r.Some? ==> r.value.year >= 0 && r.value.month >= 0
  {
    var parts := Split(yyyymm, '-');
    if |parts| != 2 then None
    else match (ParseInt(parts[0]), ParseInt(parts[1]))
      case (Some(y), Some(m)) => Some(YearMonth(y, m))
      case _ => None
  }

  /** The canonical "YYYY-MM" text of a month. */
  function MonthText(y: nat, m: nat): (r: string)
    requires y < 10000 && m < 100
    ensures |r| == 7 && r[4] == '-'
  {
    Pad4(y) + "-" + Pad2(m)
  }

  /** The canonical month text parses back to its year and month. */
  lemma MonthTextParses(y: nat, m: nat)
    requires y < 10000 && m < 100
    ensures ParseYearMonth(MonthText(y, m)) == Some(YearMonth(y, m))
  {
    assert '-' !in Pad4(y) && '-' !in Pad2(m);
    SplitAfter(Pad4(y), '-', Pad2(m));
    SplitNoSep(Pad2(m), '-');
    ParsePadded(y, 4);
    ParsePadded(m, 2);
  }

  /** `date(y, m, d).isoformat()` for a year in 1..9999. */
  function IsoFormat(d: Date): (r: string)
    requires 0 <= d.year < 10000 && 0 <= d.month < 100 && 0 <= d.day < 100
    ensures |r| == 10
  {
    MonthText(d.year, d.month) + "-" + Pad2(d.day)
  }

  /** The dates `month_dates` samples, before formatting. Errors are raised in
      Python's order: `monthrange` checks the month, then `date` the year. */
  function SampleDates(ym: YearMonth): (r: Result<seq<Date>>)
    ensures r.Ok? <==> 1 <= ym.month <= 12 && 1 <= ym.year <= 9999
    ensures !(1 <= ym.month <= 12) ==> r == Err(IllegalMonth(ym.month))
  {
    if !(1 <= ym.month <= 12) then Err(IllegalMonth(ym.month))
    else
      var days := SortedDistinct(Picks(DaysInMonth(ym.year, ym.month)));
      if !(1 <= ym.year <= 9999) then Err(YearOutOfRange(ym.year))
      else Ok(seq(|days|, i requires 0 <= i < |days| => Date(ym.year, ym.month, days[i])))
  }

  /** `month_dates(yyyymm)`. */
  function MonthDates(yyyymm: string): (r: Result<seq<string>>)
    ensures r.Ok? <==> ParseYearMonth(yyyymm).Some? && SampleDates(ParseYearMonth(yyyymm).value).Ok?
    ensures ParseYearMonth(yyyymm).None? ==> r == Err(MalformedMonth)
  {
    match ParseYearMonth(yyyymm)
    case None => Err(MalformedMonth)
    case Some(ym) =>
      match SampleDates(ym)
      case Err(e) => Err(e)
      case Ok(dates) =>
        SampleDatesInRange(ym);
        Ok(seq(|dates|, i requires 0 <= i < |dates| => IsoFormat(dates[i])))
  }

  /** What the sampler returns for a valid month: five dates of that month on
      days 1, 8, 15, 22 and min(29, days in month), ascending. */
  lemma SampleDatesInRange(ym: YearMonth)
    requires SampleDates(ym).Ok?
    ensures var dates := SampleDates(ym).value;
      var last := DaysInMonth(ym.year, ym.month);
      && |dates| == 5
      && dates[0].day == 1 && dates[1].day == 8 && dates[2].day == 15 && dates[3].day == 22
      && dates[4].day == (if last < 29 then last else 29)
      && (forall i :: 0 <= i < 5 ==>
            dates[i].year == ym.year && dates[i].month == ym.month && 1 <= dates[i].day <= last)
      && (forall i, j :: 0 <= i < j < 5 ==> dates[i].day < dates[j].day)
  {
    SampledDays(DaysInMonth(ym.year, ym.month));
  }

  /** Only a non-leap February ends the sample on the 28th; every other month,
      leap-year February included, ends it on the 29th. */
  lemma {:induction false} LastSampledDay(ym: YearMonth)
    requires SampleDates(ym).Ok?
    ensures |SampleDates(ym).value| == 5
    ensures SampleDates(ym).value[4].day == (if ym.month == 2 && !IsLeap(ym.year) then 28 else 29)
  {
    SampleDatesInRange(ym);
  }

  /** Every ISO date of a month starts with that month's canonical text, and
      later days give lexicographically greater strings. */
  lemma {:induction false} IsoFormatInMonth(y: nat, m: nat, d1: nat, d2: nat)
    requires 1 <= y < 10000 && m < 100 && d1 < d2 < 100
    ensures IsoFormat(Date(y, m, d1))[..7] == MonthText(y, m)
    ensures IsoFormat(Date(y, m, d2))[..7] == MonthText(y, m)
    ensures LexLess(IsoFormat(Date(y, m, d1)), IsoFormat(Date(y, m, d2)))
  {
    var p := MonthText(y, m) + "-";
    assert IsoFormat(Date(y, m, d1)) == p + Pad2(d1);
    assert IsoFormat(Date(y, m, d2)) == p + Pad2(d2);
    Pad2Order(d1, d2);
    LexLessCommonPrefix(p, Pad2(d1), Pad2(d2));
  }

  /** `month_dates` on a well-formed month: exactly five ISO strings, strictly
      ascending, each inside the requested month; for canonical input text each
      one begins with that very text. */
  lemma {:induction false} MonthDatesAscending(yyyymm: string)
    requires MonthDates(yyyymm).Ok?
    ensures var r := MonthDates(yyyymm).value;
      var ym := ParseYearMonth(yyyymm).value;
      && |r| == 5
      && (forall i :: 0 <= i < 5 ==> r[i][..7] == MonthText(ym.year, ym.month))
      && (forall i, j :: 0 <= i < j < 5 ==> LexLess(r[i], r[j]))
  {
    var ym := ParseYearMonth(yyyymm).value;
    SampleDatesInRange(ym);
    var dates := SampleDates(ym).value;
    var r := MonthDates(yyyymm).value;
    forall i, j | 0 <= i < j < 5
      ensures r[i][..7] == MonthText(ym.year, ym.month)
      ensures r[j][..7] == MonthText(ym.year, ym.month)
      ensures LexLess(r[i], r[j])
    {
      IsoFormatInMonth(ym.year, ym.month, dates[i].day, dates[j].day);
    }
    assert r[0][..7] == MonthText(ym.year, ym.month) by {
      IsoFormatInMonth(ym.year, ym.month, dates[0].day, dates[1].day);
    }
  }

  /** Canonical month text is always accepted when the year and month are valid. */
  lemma {:induction false} MonthDatesCanonical(y: nat, m: nat)
    requires 1 <= y <= 9999 && 1 <= m <= 12
    ensures MonthDates(MonthText(y, m)).Ok? && |MonthDates(MonthText(y, m)).value| == 5
    ensures forall i :: 0 <= i < 5 ==> MonthDates(MonthText(y, m)).value[i][..7] == MonthText(y, m)
  {
    MonthTextParses(y, m);
    MonthDatesAscending(MonthText(y, m));
  }
}
