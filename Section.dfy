/** `build_section` (newsletter.py:59-72): for every origin × destination pair
    of a watch, the cheapest price over the month's sampled dates; the priced
    pairs with their deep links, stably sorted by price and cut to six. The
    flight-offer search is a parameter, `fetch`, that maps (origin,
    destination, date) to the HTTP reply; its bearer token is bound inside it. */
module Section {
  import opened Outcomes
  import opened Strings
  import opened Calendar
  import opened Links
  import opened Search
  import opened Routes
  import opened Ranking

  /** `rows[:6]`. */
  const MaxRows := 6

  type Fetch = (string, string, string) -> Response

  /** What `search_min_price` gives for one route on one date. */
  function Sample(fetch: Fetch, origin: string, dest: string, date: string): Result<Option<int>>
  {
    QueryOutcome(fetch(origin, dest, date))
  }

  /** A reply that was accepted and carried a price. */
  predicate Priced(r: Result<Option<int>>)
  {
    r.Ok? && r.value.Some?
  }

  // ---------------------------------------------------------------- pairs

  /** The pairs the inner loop visits for one origin, in destination order. */
  function Across(origin: string, dests: seq<string>): (r: seq<(string, string)>)
    ensures |r| == |dests|
    ensures forall j :: 0 <= j < |dests| ==> r[j] == (origin, dests[j])
  {
    seq(|dests|, j requires 0 <= j < |dests| => (origin, dests[j]))
  }

  /** The pairs the nested loops visit: origin-major, destination-minor. */
  function Pairs(origins: seq<string>, dests: seq<string>): (r: seq<(string, string)>)
  {
    if origins == [] then [] else Across(origins[0], dests) + Pairs(origins[1..], dests)
  }

  /** There are |origins|·|destinations| pairs and the pair at position
      i·|destinations| + j is (origins[i], destinations[j]). */
  lemma {:induction false} PairsAt(origins: seq<string>, dests: seq<string>, i: nat, j: nat)
    requires i < |origins| && j < |dests|
    ensures |Pairs(origins, dests)| == |origins| * |dests|
    ensures i * |dests| + j < |Pairs(origins, dests)|
    ensures Pairs(origins, dests)[i * |dests| + j] == (origins[i], dests[j])
  {
    PairsLength(origins, dests);
    if i > 0 {
      PairsAt(origins[1..], dests, i - 1, j);
      assert i * |dests| + j == |dests| + ((i - 1) * |dests| + j);
    }
  }

  lemma {:induction false} PairsLength(origins: seq<string>, dests: seq<string>)
    ensures |Pairs(origins, dests)| == |origins| * |dests|
  {
    if origins != [] {
      PairsLength(origins[1..], dests);
      assert |origins| * |dests| == |dests| + (|origins| - 1) * |dests|;
    }
  }

  // ---------------------------------------------------------------- one pair

  /** The innermost loop: `best` folded over the replies for `dates`, taking
      one `Keep` step for every present price. A reply that raises aborts the
      fold. */
  function PairBest(fetch: Fetch, origin: string, dest: string, dates: seq<string>, best: Option<int>)
    : Result<Option<int>>
  {
    if dates == [] then Ok(best)
    else
      match Sample(fetch, origin, dest, dates[0])
      case Err(e) => Err(e)
      case Ok(p) =>
        PairBest(fetch, origin, dest, dates[1..], if p.Some? then Keep(best, p.value) else best)
  }

  /** The fold fails iff some date's reply raises; it ends absent iff it
      started absent and every date gave no price; otherwise its price is one
      the dates gave (or the starting one) and no dearer than any of them. */
  lemma {:induction false} PairBestMeaning(fetch: Fetch, origin: string, dest: string, dates: seq<string>,
                                           best: Option<int>)
    ensures var r := PairBest(fetch, origin, dest, dates, best);
      && (r.Ok? <==> forall i :: 0 <= i < |dates| ==> Sample(fetch, origin, dest, dates[i]).Ok?)
      && (r == Ok(None) <==>
            best.None? && forall i :: 0 <= i < |dates| ==> Sample(fetch, origin, dest, dates[i]) == Ok(None))
      && (r.Ok? && r.value.Some? ==>
            && (r.value == best || exists i :: 0 <= i < |dates| && Sample(fetch, origin, dest, dates[i]) == Ok(r.value))
            && (best.Some? ==> r.value.value <= best.value)
            && forall i :: 0 <= i < |dates| && Sample(fetch, origin, dest, dates[i]).Ok?
                             && Sample(fetch, origin, dest, dates[i]).value.Some? ==>
                             r.value.value <= Sample(fetch, origin, dest, dates[i]).value.value)
  {
    if dates != [] {
      assert forall i :: 1 <= i < |dates| ==> dates[i] == dates[1..][i - 1];
      match Sample(fetch, origin, dest, dates[0])
      case Err(e) =>
      case Ok(p) =>
        var best' := if p.Some? then Keep(best, p.value) else best;
        PairBestMeaning(fetch, origin, dest, dates[1..], best');
    }
  }

  // ---------------------------------------------------------------- all pairs

  /** The row `build_section` appends for a pair whose best price is `price`. */
  function RowFor(origin: string, dest: string, price: int, month: string): Row
    requires |Split(month, '-')| == 2
  {
    Row(origin, dest, price, GoogleFlightsLink(origin, dest, month).value)
  }

  /** `row` is what the pair `pair` contributes: its cheapest price over the
      dates and the link for that route and month. */
  predicate Contributes(row: Row, pair: (string, string), dates: seq<string>, month: string, fetch: Fetch)
    requires |Split(month, '-')| == 2
  {
    PairBest(fetch, pair.0, pair.1, dates, None) == Ok(Some(row.price)) &&
    row == RowFor(pair.0, pair.1, row.price, month)
  }

  /** The rows the nested loops append, in visiting order, or the first error. */
  function Candidates(pairs: seq<(string, string)>, dates: seq<string>, month: string, fetch: Fetch)
    : Result<seq<Row>>
    requires |Split(month, '-')| == 2
  {
    if pairs == [] then Ok([])
    else
      match PairBest(fetch, pairs[0].0, pairs[0].1, dates, None)
      case Err(e) => Err(e)
      case Ok(best) =>
        var head := if best.Some? then [RowFor(pairs[0].0, pairs[0].1, best.value, month)] else [];
        Prepend(head, Candidates(pairs[1..], dates, month, fetch))
  }

  /** How many of the pairs got a price over the dates. */
  function PricedCount(pairs: seq<(string, string)>, dates: seq<string>, fetch: Fetch): (n: nat)
    ensures n <= |pairs|
  {
    if pairs == [] then 0
    else
      var here := if Priced(PairBest(fetch, pairs[0].0, pairs[0].1, dates, None)) then 1 else 0;
      here + PricedCount(pairs[1..], dates, fetch)
  }

  /** The rows fail iff some pair's fold fails; otherwise there are as many
      rows as priced positions in the pair list, every row is a pair's
      contribution, and every pair with a price contributes its row.
      `CandidatesMultiplicity` gives how often each row occurs. */
  lemma {:induction false} CandidatesMeaning(pairs: seq<(string, string)>, dates: seq<string>, month: string,
                                             fetch: Fetch)
    requires |Split(month, '-')| == 2
    ensures var r := Candidates(pairs, dates, month, fetch);
      && (r.Ok? <==> forall k :: 0 <= k < |pairs| ==> PairBest(fetch, pairs[k].0, pairs[k].1, dates, None).Ok?)
      && (r.Ok? ==> |r.value| == PricedCount(pairs, dates, fetch))
      && (r.Ok? ==> forall row :: row in r.value ==>
            exists k :: 0 <= k < |pairs| && Contributes(row, pairs[k], dates, month, fetch))
      && (r.Ok? ==> forall k :: 0 <= k < |pairs| && PairBest(fetch, pairs[k].0, pairs[k].1, dates, None).value.Some? ==>
            RowFor(pairs[k].0, pairs[k].1, PairBest(fetch, pairs[k].0, pairs[k].1, dates, None).value.value, month)
              in r.value)
  {
    if pairs != [] {
      assert forall k :: 1 <= k < |pairs| ==> pairs[k] == pairs[1..][k - 1];
      CandidatesMeaning(pairs[1..], dates, month, fetch);
    }
  }

  /** How many positions of the pair list contribute `row`. */
  function Contributions(row: Row, pairs: seq<(string, string)>, dates: seq<string>, month: string, fetch: Fetch)
    : (n: nat)
    requires |Split(month, '-')| == 2
    ensures n <= |pairs|
  {
    if pairs == [] then 0
    else
      var here := if Contributes(row, pairs[0], dates, month, fetch) then 1 else 0;
      here + Contributions(row, pairs[1..], dates, month, fetch)
  }

  /** Each row occurs among the candidates exactly as often as pair positions
      contribute it, so a pair named twice gives its row twice. */
  lemma {:induction false} CandidatesMultiplicity(pairs: seq<(string, string)>, dates: seq<string>, month: string,
                                                  fetch: Fetch, row: Row)
    requires |Split(month, '-')| == 2
    ensures var r := Candidates(pairs, dates, month, fetch);
      r.Ok? ==> multiset(r.value)[row] == Contributions(row, pairs, dates, month, fetch)
  {
    if pairs != [] {
      CandidatesMultiplicity(pairs[1..], dates, month, fetch, row);
      match PairBest(fetch, pairs[0].0, pairs[0].1, dates, None)
      case Err(e) =>
      case Ok(best) =>
        var head := if best.Some? then [RowFor(pairs[0].0, pairs[0].1, best.value, month)] else [];
        assert multiset(head)[row] == if Contributes(row, pairs[0], dates, month, fetch) then 1 else 0;
        match Candidates(pairs[1..], dates, month, fetch)
        case Err(e) =>
        case Ok(rest) =>
          assert multiset(head + rest)[row] == multiset(head)[row] + multiset(rest)[row];
    }
  }

  /** The rows of two runs of pairs, one after the other. */
  lemma {:induction false} CandidatesConcat(p: seq<(string, string)>, q: seq<(string, string)>,
                                            dates: seq<string>, month: string, fetch: Fetch)
    requires |Split(month, '-')| == 2
    ensures Candidates(p + q, dates, month, fetch) ==
      match Candidates(p, dates, month, fetch)
      case Err(e) => Err(e)
      case Ok(rows) => Prepend(rows, Candidates(q, dates, month, fetch))
  {
    if p == [] {
      assert p + q == q;
      PrependEmpty(Candidates(q, dates, month, fetch));
    } else {
      assert (p + q)[0] == p[0] && (p + q)[1..] == p[1..] + q;
      CandidatesConcat(p[1..], q, dates, month, fetch);
      match Candidates(p[1..], dates, month, fetch)
      case Err(e) =>
      case Ok(rest) =>
        forall head: seq<Row>
          ensures Prepend(head, Prepend(rest, Candidates(q, dates, month, fetch)))
               == Prepend(head + rest, Candidates(q, dates, month, fetch))
        {
          PrependPrepend(head, rest, Candidates(q, dates, month, fetch));
        }
    }
  }

  lemma PrependEmpty(r: Result<seq<Row>>)
    ensures Prepend([], r) == r
  {
    if r.Ok? { assert [] + r.value == r.value; }
  }

  lemma PrependPrepend(a: seq<Row>, b: seq<Row>, r: Result<seq<Row>>)
    ensures Prepend(a, Prepend(b, r)) == Prepend(a + b, r)
  {
    if r.Ok? { assert a + (b + r.value) == (a + b) + r.value; }
  }

  /** Puts rows already appended in front of an outcome. */
  function Prepend(rows: seq<Row>, r: Result<seq<Row>>): Result<seq<Row>>
  {
    match r
    case Err(e) => Err(e)
    case Ok(rest) => Ok(rows + rest)
  }

  // ---------------------------------------------------------------- the section

  /** `rows[:6]`. */
  function Top(rows: seq<Row>): (r: seq<Row>)
    ensures |r| <= MaxRows && |r| <= |rows| && r <= rows
    ensures |rows| <= MaxRows ==> r == rows
    ensures |rows| > MaxRows ==> |r| == MaxRows
  {
    rows[..if |rows| < MaxRows then |rows| else MaxRows]
  }

  /** `build_section(token, watch)`. */
  function BuildSectionSpec(watch: Watch, fetch: Fetch): (r: Result<seq<Row>>)
  {
    match MonthDates(watch.month)
    case Err(e) => Err(e)
    case Ok(dates) =>
      match Candidates(Pairs(watch.origins, watch.destinations), dates, watch.month, fetch)
      case Err(e) => Err(e)
      case Ok(rows) => Ok(Top(SortByPrice(rows)))
  }

  // ---------------------------------------------------------------- the loops

  /** The innermost loop of `build_section` for one pair. */
  method CheapestOverDates(fetch: Fetch, origin: string, dest: string, dates: seq<string>)
    returns (r: Result<Option<int>>)
    ensures r == PairBest(fetch, origin, dest, dates, None)
  {
    var best: Option<int> := None;
    var k := 0;
    while k < |dates|
      invariant 0 <= k <= |dates|
      invariant PairBest(fetch, origin, dest, dates, None) == PairBest(fetch, origin, dest, dates[k..], best)
    {
      var p := SearchMinPrice(fetch(origin, dest, dates[k]));
      assert dates[k..][0] == dates[k] && dates[k..][1..] == dates[k + 1..];
      if p.Err? {
        return Err(p.error);
      }
      if p.value.Some? {
        best := Keep(best, p.value.value);
      }
      k := k + 1;
    }
    return Ok(best);
  }

  /** The middle loop of `build_section`: the rows for one origin, in
      destination order. */
  method RowsForOrigin(fetch: Fetch, origin: string, dests: seq<string>, dates: seq<string>, month: string)
    returns (r: Result<seq<Row>>)
    requires |Split(month, '-')| == 2
    ensures r == Candidates(Across(origin, dests), dates, month, fetch)
  {
    var rows: seq<Row> := [];
    var j := 0;
    assert dests[0..] == dests;
    PrependEmpty(Candidates(Across(origin, dests), dates, month, fetch));
    while j < |dests|
      invariant 0 <= j <= |dests|
      invariant Candidates(Across(origin, dests), dates, month, fetch)
             == Prepend(rows, Candidates(Across(origin, dests[j..]), dates, month, fetch))
    {
      var dest := dests[j];
      ghost var rest := Across(origin, dests[j..]);
      assert rest[0] == (origin, dest) && rest[1..] == Across(origin, dests[j + 1..]);
      var best := CheapestOverDates(fetch, origin, dest, dates);
      if best.Err? {
        return Err(best.error);
      }
      ghost var head := if best.value.Some? then [RowFor(origin, dest, best.value.value, month)] else [];
      assert Candidates(rest, dates, month, fetch) == Prepend(head, Candidates(rest[1..], dates, month, fetch));
      PrependPrepend(rows, head, Candidates(rest[1..], dates, month, fetch));
      ghost var before := rows;
      if best.value.Some? {
        var link := GoogleFlightsLink(origin, dest, month);
        rows := rows + [Row(origin, dest, best.value.value, link.value)];
      } else {
        assert before + head == rows;
      }
      assert rows == before + head;
      j := j + 1;
    }
    assert Across(origin, dests[j..]) == [];
    assert rows + [] == rows;
    return Ok(rows);
  }

  /** The outer loop of `build_section`: the rows for every pair, origin by
      origin. */
  method AllRows(fetch: Fetch, origins: seq<string>, dests: seq<string>, dates: seq<string>, month: string)
    returns (r: Result<seq<Row>>)
    requires |Split(month, '-')| == 2
    ensures r == Candidates(Pairs(origins, dests), dates, month, fetch)
  {
    var rows: seq<Row> := [];
    var i := 0;
    assert origins[0..] == origins;
    PrependEmpty(Candidates(Pairs(origins, dests), dates, month, fetch));
    while i < |origins|
      invariant 0 <= i <= |origins|
      invariant Candidates(Pairs(origins, dests), dates, month, fetch)
             == Prepend(rows, Candidates(Pairs(origins[i..], dests), dates, month, fetch))
    {
      var origin := origins[i];
      assert origins[i..][0] == origin && origins[i..][1..] == origins[i + 1..];
      CandidatesConcat(Across(origin, dests), Pairs(origins[i + 1..], dests), dates, month, fetch);
      var these := RowsForOrigin(fetch, origin, dests, dates, month);
      if these.Err? {
        return Err(these.error);
      }
      PrependPrepend(rows, these.value, Candidates(Pairs(origins[i + 1..], dests), dates, month, fetch));
      rows := rows + these.value;
      i := i + 1;
    }
    assert rows + [] == rows;
    return Ok(rows);
  }

  /** `build_section(token, watch)`: the nested loops append a row per priced
      pair, then the rows are sorted in place and the first six returned. */
  method BuildSection(watch: Watch, fetch: Fetch) returns (r: Result<seq<Row>>)
    ensures r == BuildSectionSpec(watch, fetch)
  {
    var dates := MonthDates(watch.month);
    if dates.Err? {
      return Err(dates.error);
    }
    var rows := AllRows(fetch, watch.origins, watch.destinations, dates.value, watch.month);
    if rows.Err? {
      return Err(rows.error);
    }
    var a := new Row[|rows.value|](n requires 0 <= n < |rows.value| => rows.value[n]);
    assert a[..] == rows.value;
    SortRowsByPrice(a);
    var n := if a.Length < MaxRows then a.Length else MaxRows;
    return Ok(a[..n]);
  }

  // ---------------------------------------------------------------- properties

  /** A route is listed iff at least one sampled date gave a price for it, and
      its listed price is the cheapest of the prices the dates gave. */
  lemma ListedIffPriced(pairs: seq<(string, string)>, dates: seq<string>, month: string, fetch: Fetch,
                        origin: string, dest: string)
    requires |Split(month, '-')| == 2
    requires Candidates(pairs, dates, month, fetch).Ok?
    requires (origin, dest) in pairs
    ensures var rows := Candidates(pairs, dates, month, fetch).value;
      && ((exists row :: row in rows && row.origin == origin && row.dest == dest) <==>
          (exists i :: 0 <= i < |dates| && Priced(Sample(fetch, origin, dest, dates[i]))))
      && forall row :: row in rows && row.origin == origin && row.dest == dest ==>
           && row.link == GoogleFlightsLink(origin, dest, month).value
           && (exists i :: 0 <= i < |dates| && Sample(fetch, origin, dest, dates[i]) == Ok(Some(row.price)))
           && (forall i :: 0 <= i < |dates| && Priced(Sample(fetch, origin, dest, dates[i])) ==>
                 row.price <= Sample(fetch, origin, dest, dates[i]).value.value)
  {
    var rows := Candidates(pairs, dates, month, fetch).value;
    CandidatesMeaning(pairs, dates, month, fetch);
    PairBestMeaning(fetch, origin, dest, dates, None);
    var k :| 0 <= k < |pairs| && pairs[k] == (origin, dest);
    var pb := PairBest(fetch, origin, dest, dates, None);
    assert pb.Ok?;
    if exists i :: 0 <= i < |dates| && Priced(Sample(fetch, origin, dest, dates[i])) {
      var i :| 0 <= i < |dates| && Priced(Sample(fetch, origin, dest, dates[i]));
      assert pb != Ok(None);
      var row := RowFor(origin, dest, pb.value.value, month);
      assert row in rows;
    }
    forall row | row in rows && row.origin == origin && row.dest == dest
      ensures row.link == GoogleFlightsLink(origin, dest, month).value
      ensures exists i :: 0 <= i < |dates| && Sample(fetch, origin, dest, dates[i]) == Ok(Some(row.price))
    {
      var k' :| 0 <= k' < |pairs| && Contributes(row, pairs[k'], dates, month, fetch);
      assert pb == Ok(Some(row.price));
    }
  }

  /** In rows sorted by price, no row of a prefix is dearer than a row after it. */
  lemma SortedPrefixCheaper(sorted: seq<Row>, n: nat, x: Row, y: Row)
    requires SortedByPrice(sorted) && n <= |sorted|
    requires x in sorted[n..] && y in sorted[..n]
    ensures y.price <= x.price
  {
  }

  /** A row of `s` that is not in its first `n` rows is in the rest. */
  lemma LeftOutIsAfter(s: seq<Row>, n: nat, x: Row)
    requires n <= |s| && x in s && x !in s[..n]
    ensures x in s[n..]
  {
  }

  /** The first six of the sorted rows are the cheapest rows: sorted, drawn
      from the rows, and no dearer than any row they leave out. */
  lemma TopIsCheapest(rows: seq<Row>)
    ensures var section := Top(SortByPrice(rows));
      && SortedByPrice(section)
      && multiset(section) <= multiset(rows)
      && forall x, y :: x in rows && x !in section && y in section ==> y.price <= x.price
  {
    var sorted := SortByPrice(rows);
    var section := Top(sorted);
    var n := |section|;
    SortByPriceSortsAndPermutes(rows);
    assert sorted == section + sorted[n..];
    assert multiset(sorted) == multiset(section) + multiset(sorted[n..]);
    forall x, y | x in rows && x !in section && y in section
      ensures y.price <= x.price
    {
      assert x in multiset(rows);
      assert x in sorted;
      LeftOutIsAfter(sorted, n, x);
      SortedPrefixCheaper(sorted, n, x, y);
    }
  }

  /** The section is the cheapest part of the sorted candidate rows: sorted by
      price, six rows or all of them when there are fewer, one candidate per
      priced position of the pair list and so no more rows than pairs, a
      prefix of the sorted rows, and every candidate left out costs at least
      as much as every row kept. */
  lemma SectionRanked(watch: Watch, fetch: Fetch)
    requires BuildSectionSpec(watch, fetch).Ok?
    ensures var dates := MonthDates(watch.month).value;
      var rows := Candidates(Pairs(watch.origins, watch.destinations), dates, watch.month, fetch).value;
      var section := BuildSectionSpec(watch, fetch).value;
      && SortedByPrice(section)
      && |rows| == PricedCount(Pairs(watch.origins, watch.destinations), dates, fetch)
      && |section| == (if |rows| < MaxRows then |rows| else MaxRows)
      && |section| <= |watch.origins| * |watch.destinations|
      && section <= SortByPrice(rows)
      && multiset(section) <= multiset(rows)
      && forall x, y :: x in rows && x !in section && y in section ==> y.price <= x.price
  {
    var dates := MonthDates(watch.month).value;
    var rows := Candidates(Pairs(watch.origins, watch.destinations), dates, watch.month, fetch).value;
    PairsLength(watch.origins, watch.destinations);
    CandidatesMeaning(Pairs(watch.origins, watch.destinations), dates, watch.month, fetch);
    SortByPriceSortsAndPermutes(rows);
    TopIsCheapest(rows);
  }

  /** Cutting to six keeps the sort stable: for every price, the section's rows
      of that price are the first of the candidates' rows of that price, in the
      order the loops appended them. */
  lemma SectionStable(watch: Watch, fetch: Fetch, k: int)
    requires BuildSectionSpec(watch, fetch).Ok?
    ensures var dates := MonthDates(watch.month).value;
      var rows := Candidates(Pairs(watch.origins, watch.destinations), dates, watch.month, fetch).value;
      WithPrice(BuildSectionSpec(watch, fetch).value, k) <= WithPrice(rows, k)
  {
    var dates := MonthDates(watch.month).value;
    var rows := Candidates(Pairs(watch.origins, watch.destinations), dates, watch.month, fetch).value;
    var sorted := SortByPrice(rows);
    var section := Top(sorted);
    SortStable(rows, k);
    assert sorted == section + sorted[|section|..];
    WithPriceAppend(section, sorted[|section|..], k);
  }
}
