/** `google_flights_link` (newsletter.py:55-57): a flight-search deep link with
    the outbound leg on the 1st and the return leg on the 8th of the month. */
module Links {
  import opened Outcomes
  import opened Strings

  const LinkBase := "https://www.google.com/travel/flights?hl=en#flt="

  /** `{from}.{to}.{y}-{m}-{day}`: one leg of the link's fragment. */
  function Leg(from: string, to: string, y: string, m: string, day: string): string
  {
    from + "." + to + "." + y + "-" + m + "-" + day
  }

  /** `google_flights_link(origin, dest, yyyymm)`; unpacking the split month
      raises unless it has exactly two pieces. */
  function GoogleFlightsLink(origin: string, dest: string, yyyymm: string): (r: Result<string>)
    ensures r.Ok? <==> |Split(yyyymm, '-')| == 2
    ensures r.Err? ==> r.error == MalformedMonth
    ensures r.Ok? ==> LinkBase <= r.value
  {
    var parts := Split(yyyymm, '-');
    if |parts| != 2 then Err(MalformedMonth)
    else
      var y, m := parts[0], parts[1];
      Ok(LinkBase + Leg(origin, dest, y, m, "01") + "*" + Leg(dest, origin, y, m, "08"))
  }

  /** Decoding the link: after the fixed base, the fragment splits on `*` into
      the outbound and return legs, and each leg splits on `.` into its two
      airports and its date, the month text followed by the day. Airport codes
      and months never contain `.` or `*`. */
  lemma LinkLegs(origin: string, dest: string, yyyymm: string)
    requires GoogleFlightsLink(origin, dest, yyyymm).Ok?
    requires '.' !in origin && '.' !in dest && '.' !in yyyymm
    requires '*' !in origin && '*' !in dest && '*' !in yyyymm
    ensures var link := GoogleFlightsLink(origin, dest, yyyymm).value;
      var legs := Split(link[|LinkBase|..], '*');
      && |legs| == 2
      && Split(legs[0], '.') == [origin, dest, yyyymm + "-01"]
      && Split(legs[1], '.') == [dest, origin, yyyymm + "-08"]
  {
    var parts := Split(yyyymm, '-');
    MonthPieces(yyyymm);
    var out := Leg(origin, dest, parts[0], parts[1], "01");
    var ret := Leg(dest, origin, parts[0], parts[1], "08");
    LegOf(origin, dest, parts[0], parts[1], "01", yyyymm, yyyymm + "-01");
    LegOf(dest, origin, parts[0], parts[1], "08", yyyymm, yyyymm + "-08");
    assert GoogleFlightsLink(origin, dest, yyyymm).value[|LinkBase|..] == out + "*" + ret;
    FragmentLegs(out, ret);
  }

  /** A month text of two pieces is its pieces around the dash. */
  lemma MonthPieces(yyyymm: string)
    requires |Split(yyyymm, '-')| == 2
    ensures Split(yyyymm, '-')[0] + "-" + Split(yyyymm, '-')[1] == yyyymm
  {
    JoinSplit(yyyymm, '-');
  }

  /** Two legs joined by `*` split back into the two legs. */
  lemma FragmentLegs(out: string, ret: string)
    requires '*' !in out && '*' !in ret
    ensures Split(out + "*" + ret, '*') == [out, ret]
  {
    SplitAfter(out, '*', ret);
    SplitNoSep(ret, '*');
  }

  /** A leg holds no `*` and splits on `.` into its two airports and its date. */
  lemma LegOf(from: string, to: string, y: string, m: string, day: string, month: string, date: string)
    requires y + "-" + m == month && date == month + "-" + day
    requires '.' !in from && '.' !in to && '.' !in month && '.' !in day
    requires '*' !in from && '*' !in to && '*' !in month && '*' !in day
    ensures '*' !in Leg(from, to, y, m, day)
    ensures Split(Leg(from, to, y, m, day), '.') == [from, to, date]
  {
    assert Leg(from, to, y, m, day) == from + "." + (to + "." + date);
    SplitAfter(from, '.', to + "." + date);
    SplitAfter(to, '.', date);
    SplitNoSep(date, '.');
  }
}
