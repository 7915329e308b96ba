# Weekly flight-deals newsletter: a Dafny model of its core

The newsletter job runs once a week and handles a list of "watches". A
watch is a title, a "YYYY-MM" month, some origin airports and some
destination airports. For each watch the job:

1. samples five days of the month (`month_dates`);
2. asks a flight-offer search API for the cheapest offer on every
   origin × destination pair and every sampled day (`search_min_price`);
3. keeps each pair's cheapest price and links the pair to a flight-search
   page (`google_flights_link`);
4. sorts the priced pairs by price, keeping equal prices in their original
   order, and cuts the list to six (`build_section`).

It then renders all sections into one HTML body (`build_html`). It reads the
subscribers from a CSV file (`load_subscribers`) and mails the body to all
of them, unless there are none (`send_email`).

The model has one module per concern:

- `Outcomes` holds `Option` and `Result` values. `Error` lists the
  exceptions the job can raise, so that an exception becomes an `Err` value
  that the caller propagates.
- `Strings` models the Python string operations the job relies on:
  `str.split` on one character, `str.join`, `str.strip`, `int()` on decimal
  text, and zero padding. It proves their round trips.
- `Calendar` models `month_dates`, with `calendar.monthrange` and
  `date.isoformat`.
- `Links` models `google_flights_link`.
- `Search` models what `search_min_price` does with the HTTP reply. The
  request itself is an input value.
- `Routes` declares the `Watch` and `Row` values.
- `Ranking` models `rows.sort(key=price)`. This is an insertion sort in
  place on an array. The module proves it is the one stable sort by price.
- `Section` models `build_section`. The three nested loops are methods, and
  each is proved against a functional specification. The flight-offer
  search is a function parameter `fetch` from (origin, destination, date)
  to the reply. The bearer token is bound inside `fetch`.
- `Mailer` models the row filter of `load_subscribers` and the decision
  `send_email` makes before it opens an SMTP session.
- `Digest` models `build_html`.

The sampled days follow the code (`newsletter.py:30`): the fifth day is
`min(29, days in month)`, not the last day of the month. In 30- and 31-day
months the 30th and 31st are never sampled. `Calendar.LastSampledDay`
states this.

Prices are modelled as integers, and "cheaper" is the integers' `<`. How a
price is printed after the dollar sign (`{price:.0f}`) is a function
parameter of the renderer.

## Model

| member | source | states |
|---|---|---|
| Strings.Split | newsletter.py:28 | `str.split(sep)` on one character: there is at least one piece, and no piece contains the separator |
| Strings.Join | newsletter.py:91 | definition of `sep.join(parts)`: the parts with the separator between neighbours, the empty text for no parts; its meaning is stated by `Strings.SplitJoin`, `Strings.JoinSplit` and `Strings.JoinContains` |
| Strings.SplitJoin | newsletter.py:91 | joining parts on a character none of them contains, then splitting on that character, gives the parts back |
| Strings.JoinSplit | newsletter.py:28 | splitting text on a character and joining the pieces on it gives the text back |
| Strings.JoinContains | newsletter.py:101 | every part occurs whole in the joined text |
| Strings.IsSpace | newsletter.py:79 | definition of the characters `str.isspace` accepts and `str.strip()` removes: the ASCII white space and separators 0x09-0x0D and 0x1C-0x20, and the Unicode spaces and line and paragraph separators |
| Strings.LeadingSpaces | newsletter.py:79 | the white space `str.strip()` removes at the front: that many characters open the text, all white space, and the next one is not |
| Strings.TrailingSpaces | newsletter.py:79 | the white space `str.strip()` removes at the end: that many characters close the text, all white space, and the one before them is not |
| Strings.Strip | newsletter.py:79 | `str.strip()` is one unbroken stretch `s[i..j]` of its input, with only white space (in `str.isspace`'s sense) before `i` and from `j` on, and none at its own ends |
| Strings.StripKeeps | newsletter.py:79 | a consequence of `Strings.Strip`'s contract: every kept character comes from the input, and every character that is not white space is kept |
| Strings.ParseInt | newsletter.py:28 | `int()` succeeds exactly on an optional `+` followed by at least one decimal digit, and yields a non-negative number |
| Strings.DigitsValue | newsletter.py:28 | definition of the number `int()` reads from a run of decimal digits, most significant first; `Strings.DigitsValueAppend` and `Strings.ParsePadded` state its properties |
| Strings.DigitsValueAppend | newsletter.py:28 | the value of two concatenated digit runs is the first run's value times 10^(length of the second run), plus the second run's value |
| Strings.ParsePadded | newsletter.py:31 | zero-padded numbers (two or four digits) parse back to the number |
| Strings.Pad2 | newsletter.py:31 | the two-digit zero padding `isoformat` gives the month and day: two decimal digits; `Strings.Pad2Value` states they read back as the number |
| Strings.Pad4 | newsletter.py:31 | the four-digit zero padding `isoformat` gives the year: four decimal digits; `Strings.Pad4Value` states they read back as the number |
| Strings.Pad2Value | newsletter.py:31 | the two-digit padding of a number below 100 reads back as that number |
| Strings.Pad4Value | newsletter.py:31 | the four-digit padding of a number below 10000 reads back as that number |
| Strings.Pad2Order | newsletter.py:31 | a smaller two-digit day gives a lexicographically smaller string |
| Strings.LexLess | newsletter.py:31 | definition of Python's `<` on strings: the first differing character decides, and a proper prefix is smaller; `Strings.Pad2Order` and `Calendar.IsoFormatInMonth` state what it gives on dates |
| Calendar.DaysInMonth | newsletter.py:29 | `monthrange`'s day count is 28..31; it is 28 exactly for a non-leap February and 29 exactly for a leap February |
| Calendar.IsLeap | newsletter.py:29 | definition of the Gregorian leap year `monthrange` uses: divisible by 4, and not by 100 unless by 400 |
| Calendar.Picks | newsletter.py:30 | definition of the picked days 1, 8, 15, 22 and min(29, days); `Calendar.SampledDays` states that they are distinct and ascending |
| Calendar.IsoFormat | newsletter.py:31 | `date.isoformat()` is ten characters, "YYYY-MM-DD" zero-padded; `Calendar.IsoFormatInMonth` states its prefix and order |
| Calendar.MonthText | newsletter.py:31 | the "YYYY-MM" head of an ISO date: seven characters with '-' at index 4; `Calendar.MonthTextParses` states it parses back |
| Calendar.InsertDistinct | newsletter.py:30-31 | adding a value to an ascending list of distinct values keeps it ascending and distinct, and adds exactly that value |
| Calendar.SortedDistinct | newsletter.py:30-31 | `sorted(set(xs))` is strictly ascending and has exactly the values of `xs` |
| Calendar.SortedDistinctOfAscending | newsletter.py:30-31 | a strictly ascending list is its own `sorted(set(...))` |
| Calendar.SampledDays | newsletter.py:30-31 | for any month length, the picks 1, 8, 15, 22, min(29, days) are already distinct and ascending, so the set loses none of them |
| Calendar.ParseYearMonth | newsletter.py:28 | the month text parses exactly when it splits into two pieces on '-' and both pieces are integers |
| Calendar.MonthTextParses | newsletter.py:28 | the canonical "YYYY-MM" text of a year and month parses back to them |
| Calendar.SampleDates | newsletter.py:29-31 | dates are produced iff the month is 1..12 and the year is 1..9999; a bad month raises `monthrange`'s error first |
| Calendar.MonthDates | newsletter.py:27-31 | `month_dates` succeeds iff the text parses and its dates exist; text that does not parse raises |
| Calendar.SampleDatesInRange | newsletter.py:29-31 | a valid month gives exactly five dates of that month, on days 1, 8, 15, 22 and min(29, last day), strictly ascending and within the month |
| Calendar.LastSampledDay | newsletter.py:29-30 | the fifth date is the 28th only in a non-leap February, and the 29th in every other month |
| Calendar.IsoFormatInMonth | newsletter.py:31 | the ISO strings of two days of one month share the "YYYY-MM" prefix, and the earlier day's string sorts first |
| Calendar.MonthDatesAscending | newsletter.py:27-31 | `month_dates` returns five ISO strings in strictly ascending order, each starting with the canonical month text |
| Calendar.MonthDatesCanonical | newsletter.py:27-31 | canonical month text for years 1..9999 and months 1..12 is accepted, and every date it yields starts with that text |
| Links.GoogleFlightsLink | newsletter.py:55-57 | a link is produced iff the month splits into two pieces, otherwise unpacking raises; every link starts with the fixed flight-search URL |
| Links.LinkLegs | newsletter.py:57 | after the fixed URL, the fragment splits on `*` into two legs: origin, destination and month-01, then destination, origin and month-08 |
| Links.FragmentLegs | newsletter.py:57 | two legs without `*` joined by `*` split back into the two legs |
| Links.LegOf | newsletter.py:57 | a leg holds no `*`, and it splits on `.` into its two airports and its date |
| Links.MonthPieces | newsletter.py:56 | the two pieces of the month, rejoined around '-', are the month text |
| Links.Leg | newsletter.py:57 | definition of one leg of the fragment, `{from}.{to}.{y}-{m}-{day}`; `Links.LegOf` states how it splits back |
| Search.Keep | newsletter.py:51-52 | one step of the minimum keeps a price that is no dearer than the price seen and than the best so far, and is one of them |
| Search.IsHttpError | newsletter.py:46 | definition of the statuses `raise_for_status` raises on: 400 to 599 |
| Search.MinOf | newsletter.py:48-53 | the fold is absent iff there are no offers; otherwise it is one of the offers' totals and no dearer than any of them |
| Search.QueryOutcome | newsletter.py:44-53 | status 400 means no price; any other 4xx/5xx raises; otherwise the result is the minimum of the totals |
| Search.SearchMinPrice | newsletter.py:44-53 | the loop computes `QueryOutcome`: an absent result for 400 or no offers, otherwise a listed total no dearer than any other |
| Ranking.InsertPermutes | newsletter.py:71 | one insertion step adds exactly the inserted row |
| Ranking.SortedByPrice | newsletter.py:71 | definition of what `sort(key=price)` promises about order: no row is dearer than a later one |
| Ranking.WithPrice | newsletter.py:71 | the rows of one price, in list order; it is what stability preserves, and it is no longer than the list |
| Ranking.Insert | newsletter.py:71 | one length-adding insertion step of the stable sort; `Ranking.InsertPermutes`, `Ranking.InsertSorted` and `Ranking.InsertStable` state its meaning |
| Ranking.InsertMembers | newsletter.py:71 | every row after insertion is the inserted row or an old one |
| Ranking.InsertSorted | newsletter.py:71 | inserting into a list sorted by price keeps it sorted |
| Ranking.SortByPriceSorts | newsletter.py:71 | the sort's output is sorted by price |
| Ranking.SortByPricePermutes | newsletter.py:71 | the sort's output is a permutation of its input |
| Ranking.SortByPrice | newsletter.py:71 | `rows.sort(key=price)` as a function, keeping the length; `Ranking.SortByPriceSortsAndPermutes`, `Ranking.SortStable` and `Ranking.SortByPriceIsTheStableSort` state its meaning |
| Ranking.SortByPriceSortsAndPermutes | newsletter.py:71 | the sort's output is sorted by price and a permutation of its input |
| Ranking.WithPriceAppend | newsletter.py:71 | the rows of one price in a concatenation are those of each part, in order |
| Ranking.InsertStable | newsletter.py:71 | insertion puts the new row after the rows of equal price, and keeps each price's rows in order |
| Ranking.SortStable | newsletter.py:71 | the sort is stable: for every price, the rows of that price keep their input order |
| Ranking.StableSortUnique | newsletter.py:71 | two lists that are sorted by price and agree on the rows of every price, in order, are equal |
| Ranking.SortByPriceIsTheStableSort | newsletter.py:71 | any sorted list with the input's rows of every price, in input order, is the sort's output; so any stable sort, timsort included, gives this result |
| Ranking.InsertAt | newsletter.py:71 | insertion places the row behind the last row that is not dearer, and ahead of the dearer rows after it |
| Ranking.Placed | newsletter.py:71 | a list that agrees with a sorted prefix before position j, holds x at j, and matches the prefix shifted by one after j, is the prefix with x inserted at j |
| Ranking.InsertIntoPrefix | newsletter.py:71 | one pass of the in-place sort inserts `a[i]` into the prefix `a[..i]` and leaves the rest of the array untouched |
| Ranking.SortRowsByPrice | newsletter.py:71 | the in-place sort leaves the array holding the stable sort of its old contents |
| Section.Across | newsletter.py:63 | the middle loop visits one pair per destination, in destination order |
| Section.Pairs | newsletter.py:62-63 | definition of the pairs the two outer loops visit, origin-major; `Section.PairsAt` states their count and positions |
| Section.PairsAt | newsletter.py:62-63 | there are |origins|·|destinations| pairs, and the pair at position i·|destinations| + j is (origins[i], destinations[j]) |
| Section.PairsLength | newsletter.py:62-63 | the nested loops visit |origins|·|destinations| pairs |
| Section.Sample | newsletter.py:66 | definition of one `search_min_price` call: the outcome `Search.QueryOutcome` gives for the reply to (origin, destination, date) |
| Section.PairBest | newsletter.py:64-68 | definition of the per-pair fold over the dates; `Section.PairBestMeaning` states its meaning |
| Section.PairBestMeaning | newsletter.py:64-68 | the fold over dates fails iff some query raises. It is absent iff every date gave no price. Otherwise its price is one a date gave, and no dearer than any price a date gave |
| Section.CandidatesMeaning | newsletter.py:62-70 | the rows fail iff some pair's fold fails. Otherwise there are as many rows as priced positions in the pair list (`Section.PricedCount`), each row is a pair's cheapest price with its link, and every priced pair has its row |
| Section.Candidates | newsletter.py:62-70 | definition of the rows the nested loops append, or the first error; `Section.CandidatesMeaning` and `Section.CandidatesConcat` state its meaning |
| Section.RowFor | newsletter.py:70 | definition of the tuple appended for a priced pair: origin, destination, best price and `google_flights_link` for the watch's month |
| Section.PricedCount | newsletter.py:69-70 | how many positions of the pair list got a price, at most one per position |
| Section.Contributions | newsletter.py:69-70 | how many positions of the pair list contribute a given row, at most one per position |
| Section.Contributes | newsletter.py:69-70 | definition of a pair's contribution: its fold over the dates gave this price, and the row carries the pair and its link |
| Section.CandidatesMultiplicity | newsletter.py:62-70 | each row occurs among the candidates exactly as often as positions of the pair list contribute it, so an origin or destination named twice gives its rows twice |
| Section.CandidatesConcat | newsletter.py:62-70 | the rows of two runs of pairs are the first run's rows followed by the second's, and an error in the first run stops the second |
| Section.Top | newsletter.py:72 | `rows[:6]` is a prefix of the rows: exactly six of them when there are more than six, and all of them otherwise |
| Section.BuildSectionSpec | newsletter.py:59-72 | definition of `build_section`'s outcome: the month's error, then a query's error, or `rows[:6]` of the stably sorted rows; `Section.SectionRanked`, `Section.SectionStable` and `Section.ListedIffPriced` state its meaning |
| Section.CheapestOverDates | newsletter.py:64-68 | the innermost loop computes the fold over the dates, and returns at the first query that raises |
| Section.RowsForOrigin | newsletter.py:63-70 | the middle loop appends exactly the rows of one origin's pairs, in destination order |
| Section.AllRows | newsletter.py:62-70 | the outer loop appends exactly the rows of all pairs, origin by origin |
| Section.BuildSection | newsletter.py:59-72 | `build_section` returns the specification's outcome: the month's error, a query's error, or the first six of the stably sorted rows |
| Section.ListedIffPriced | newsletter.py:64-70 | a pair is listed iff at least one sampled date gave it a price. A listed row carries the pair's link and a price that one date gave, no dearer than any price given |
| Section.SortedPrefixCheaper | newsletter.py:71-72 | in a list sorted by price, no row of a prefix is dearer than a row after it |
| Section.LeftOutIsAfter | newsletter.py:72 | a row not among the first n is among the rest |
| Section.TopIsCheapest | newsletter.py:71-72 | the first six sorted rows are sorted and drawn from the rows, and none is dearer than any row left out |
| Section.SectionRanked | newsletter.py:59-72 | there are as many candidates as priced positions in the pair list, so no more than there are pairs; a section is sorted by price, holds six rows or all candidates when there are fewer, is a prefix of the sorted rows, and costs no more than any row left out |
| Section.SectionStable | newsletter.py:71-72 | for every price, the section's rows of that price are the first of the candidate rows of that price, in loop order |
| Mailer.Subscribers | newsletter.py:74-80 | there are no more addresses than CSV rows |
| Mailer.Accepted | newsletter.py:78 | definition of the row filter: the row is not empty and its first cell contains '@' |
| Mailer.LoadSubscribers | newsletter.py:74-80 | the loop collects the stripped first cells of the accepted rows, in file order |
| Mailer.SubscribersConcat | newsletter.py:77-79 | the subscribers of two consecutive pieces of the file are those of the first piece followed by those of the second |
| Mailer.SubscriberFromRow | newsletter.py:78-79 | every address is the stripped first cell of a row whose first cell contains '@' |
| Mailer.RowGivesSubscriber | newsletter.py:78-79 | every non-empty row whose first cell contains '@' contributes its stripped first cell |
| Mailer.SubscriberShape | newsletter.py:78-79 | every address contains '@' and has no white space at either end |
| Mailer.ComposeEmail | newsletter.py:95-102 | no message is built iff there are no recipients; otherwise it goes to those recipients, with that sender and that body |
| Mailer.SendEmail | newsletter.py:93-102 | `send_email` returns early iff no CSV row is accepted; otherwise it builds the message for the loaded subscribers |
| Mailer.EveryRecipientAddressed | newsletter.py:101 | every subscriber's address appears whole in the To header |
| Digest.Items | newsletter.py:88-89 | there is one list item per row |
| Digest.OpenSection | newsletter.py:85 | definition of a section's opening line, `<h3>title</h3><ul>` |
| Digest.Item | newsletter.py:89 | definition of one row's list item: the route with an arrow, the dollar price, a dash and the link; `Digest.ItemIsNotNoResults` and `Digest.ItemOneLine` state its properties |
| Digest.SectionParts | newsletter.py:85-90 | definition of a section's lines: opener, the placeholder when it has no rows, the items, the closer; `Digest.NoResultsIffEmpty` states when the placeholder appears |
| Digest.SectionsParts | newsletter.py:84-90 | definition of the lines the outer loop appends, section after section; `Digest.SectionsPartsConcat` and `Digest.SectionPartIncluded` state their properties |
| Digest.DigestParts | newsletter.py:83-90 | definition of the lines `build_html` joins: the heading, then every section's lines; `Digest.DigestLineCount` and `Digest.DigestLines` state their properties |
| Digest.AppendItems | newsletter.py:88-89 | the inner loop appends one list item per row, in row order |
| Digest.AppendSection | newsletter.py:84-90 | one pass of the outer loop appends the section's opener, the "no results" line when it has no rows, its items and its closer |
| Digest.BuildHtml | newsletter.py:82-91 | the body is the heading and every section's lines, joined by newlines |
| Digest.ItemsInOrder | newsletter.py:88-89 | the k-th list item renders the k-th row |
| Digest.ItemIsNotNoResults | newsletter.py:87-89 | no rendered row reads "No results this week." |
| Digest.ItemOneLine | newsletter.py:89 | a row whose texts hold no newline renders as a single line |
| Digest.NoResultsIffEmpty | newsletter.py:86-89 | a section says "No results this week." iff it has no rows |
| Digest.SectionsPartsConcat | newsletter.py:84-90 | sections rendered in two runs give the lines of the first run followed by those of the second |
| Digest.DigestLineCount | newsletter.py:82-91 | the body has one heading line, plus, per section, two lines and then one line per row, or one "no results" line |
| Digest.DigestOpensWithHeading | newsletter.py:83 | the body starts with the "Weekly Flight Deals" heading |
| Digest.SectionPartsOneLine | newsletter.py:85-90 | when the title and the row texts hold no newline, none of a section's lines does |
| Digest.SectionsPartsOneLine | newsletter.py:84-90 | when no title or row text holds a newline, none of the sections' lines does |
| Digest.DigestLines | newsletter.py:91 | when no title or row text holds a newline, splitting the body on newlines gives back exactly its lines |
| Digest.SectionPartIncluded | newsletter.py:84-90 | every line of every section is a line of the body |
| Digest.EveryRowListed | newsletter.py:84-91 | every row of every section, and every section's title line, appears whole in the body |

## Left out

- `get_token` is not modelled. It is an OAuth client-credentials POST, and its token only parameterises the search, which is the `fetch` parameter.
- The HTTP requests are not modelled: the query parameters, headers, timeouts, JSON decoding, and network or timeout exceptions. `fetch` returns a status and the offers' totals. A reply without a `data` list reads as no offers.
- Floating point is not modelled: prices are integers, and `{price:.0f}` is the function parameter `Dollars`.
- `int()` is modelled only on an optional `+` followed by ASCII digits. Python also accepts surrounding white space, `_` separators and other Unicode digits. A `-` never reaches it, because the month text is split on `-` first.
- Strings.ParseInt: for the inputs above, it reports failure where Python would parse a number.
- Ranking.SortRowsByPrice: Python sorts with timsort, the model with insertion sort. `Ranking.SortByPriceIsTheStableSort` proves that every stable sort by price gives the same list.
- Sorting a Python list in place becomes a fresh array that is sorted in place; aliasing of the list is not modelled.
- CSV parsing (quoting, dialects) and file I/O are not modelled: `load_subscribers` gets the rows `csv.reader` would yield.
- The SMTP session is not modelled: MIME building, TLS, login and `sendmail`. `send_email` ends at the message it would send. The "No subscribers found." notice is the `None` result.
- Environment variables, reading `routes.json`, and `main` are not modelled. The sections `main` builds are the input of `Digest.BuildHtml`.
- Exceptions outside the listed error cases are not modelled. This includes missing keys in a watch or an offer, and non-numeric price text.
