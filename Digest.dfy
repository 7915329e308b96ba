/** `build_html(all_sections)` (newsletter.py:82-91): the e-mail body, one
    line per heading, list opener, list item and list closer. */
module Digest {
  import opened Strings
  import opened Routes

  /** How a price is written after the dollar sign (`{price:.0f}`). */
  type Dollars = int -> string

  /** A watch's title with the rows `build_section` returned for it. */
  type Titled = (string, seq<Row>)

  const Heading := "<h2>Weekly Flight Deals</h2>"
  const NoResults := "<li>No results this week.</li>"
  const CloseList := "</ul>"

  function OpenSection(title: string): string
  {
    "<h3>" + title + "</h3><ul>"
  }

  function Item(row: Row, dollars: Dollars): string
  {
    "<li><strong>" + row.origin + " \U{2192} " + row.dest + "</strong>: $" + dollars(row.price)
      + " \U{2014} <a href=\"" + row.link + "\">View</a></li>"
  }

  /** The list items of some rows, in row order. */
  function Items(rows: seq<Row>, dollars: Dollars): (r: seq<string>)
    ensures |r| == |rows|
  {
    if rows == [] then [] else Items(rows[..|rows| - 1], dollars) + [Item(rows[|rows| - 1], dollars)]
  }

  /** The lines of one section. */
  function SectionParts(title: string, rows: seq<Row>, dollars: Dollars): seq<string>
  {
    [OpenSection(title)] + (if rows == [] then [NoResults] else []) + Items(rows, dollars) + [CloseList]
  }

  /** The lines of the sections, section after section. */
  function SectionsParts(sections: seq<Titled>, dollars: Dollars): seq<string>
  {
    if sections == [] then []
    else
      var last := sections[|sections| - 1];
      SectionsParts(sections[..|sections| - 1], dollars) + SectionParts(last.0, last.1, dollars)
  }

  /** All lines of the body: the heading, then the sections. */
  function DigestParts(sections: seq<Titled>, dollars: Dollars): seq<string>
  {
    [Heading] + SectionsParts(sections, dollars)
  }

  /** The inner loop of `build_html`: one list item per row, in row order. */
  method AppendItems(parts: seq<string>, rows: seq<Row>, dollars: Dollars) returns (r: seq<string>)
    ensures r == parts + Items(rows, dollars)
  {
    r := parts;
    var j := 0;
    while j < |rows|
      invariant 0 <= j <= |rows|
      invariant r == parts + Items(rows[..j], dollars)
    {
      assert rows[..j + 1][..j] == rows[..j];
      r := r + [Item(rows[j], dollars)];
      j := j + 1;
    }
    assert rows[..j] == rows;
  }

  /** The body of the outer loop of `build_html`: the lines of one section. */
  method AppendSection(parts: seq<string>, title: string, rows: seq<Row>, dollars: Dollars) returns (r: seq<string>)
    ensures r == parts + SectionParts(title, rows, dollars)
  {
    r := parts + [OpenSection(title)];
    if rows == [] {
      r := r + [NoResults];
    }
    r := AppendItems(r, rows, dollars);
    r := r + [CloseList];
  }

  /** The loops of `build_html`, then the join on newlines. */
  method BuildHtml(sections: seq<Titled>, dollars: Dollars) returns (html: string)
    ensures html == Join(DigestParts(sections, dollars), "\n")
  {
    var parts := [Heading];
    var i := 0;
    while i < |sections|
      invariant 0 <= i <= |sections|
      invariant parts == [Heading] + SectionsParts(sections[..i], dollars)
    {
      parts := AppendSection(parts, sections[i].0, sections[i].1, dollars);
      assert sections[..i + 1][..i] == sections[..i];
      i := i + 1;
    }
    assert sections[..i] == sections;
    html := Join(parts, "\n");
  }

  // ---------------------------------------------------------------- properties

  /** The items are the rows' items, one per row, in row order. */
  lemma {:induction false} ItemsInOrder(rows: seq<Row>, dollars: Dollars)
    ensures forall k :: 0 <= k < |rows| ==> Items(rows, dollars)[k] == Item(rows[k], dollars)
  {
    if rows != [] {
      var init := rows[..|rows| - 1];
      ItemsInOrder(init, dollars);
      assert forall k :: 0 <= k < |init| ==> init[k] == rows[k];
    }
  }

  /** No list item reads "No results this week.". */
  lemma ItemIsNotNoResults(row: Row, dollars: Dollars)
    ensures Item(row, dollars) != NoResults
  {
  }

  /** A section says "No results this week." iff it has no rows. */
  lemma NoResultsIffEmpty(title: string, rows: seq<Row>, dollars: Dollars)
    ensures NoResults in SectionParts(title, rows, dollars) <==> rows == []
  {
    var items := Items(rows, dollars);
    ItemsInOrder(rows, dollars);
    assert OpenSection(title)[1] == 'h';
    forall k | 0 <= k < |rows|
      ensures items[k] != NoResults
    {
      ItemIsNotNoResults(rows[k], dollars);
    }
  }

  /** Sections in two runs give their lines one run after the other. */
  lemma {:induction false} SectionsPartsConcat(a: seq<Titled>, b: seq<Titled>, dollars: Dollars)
    ensures SectionsParts(a + b, dollars) == SectionsParts(a, dollars) + SectionsParts(b, dollars)
  {
    if b == [] {
      assert a + b == a;
    } else {
      var init := b[..|b| - 1];
      assert (a + b)[..|a + b| - 1] == a + init;
      assert (a + b)[|a + b| - 1] == b[|b| - 1];
      SectionsPartsConcat(a, init, dollars);
    }
  }

  /** The number of lines: the heading, and for each section an opener, a
      closer and one line per row, or the single "no results" line. */
  function LineCount(sections: seq<Titled>): nat
  {
    if sections == [] then 1
    else
      var rows := sections[|sections| - 1].1;
      LineCount(sections[..|sections| - 1]) + 2 + (if rows == [] then 1 else |rows|)
  }

  lemma {:induction false} DigestLineCount(sections: seq<Titled>, dollars: Dollars)
    ensures |DigestParts(sections, dollars)| == LineCount(sections)
  {
    if sections != [] {
      DigestLineCount(sections[..|sections| - 1], dollars);
    }
  }

  /** The body opens with the heading. */
  lemma DigestOpensWithHeading(sections: seq<Titled>, dollars: Dollars)
    ensures Heading <= Join(DigestParts(sections, dollars), "\n")
  {
  }

  /** A row is fit for one line when none of its texts holds a newline. */
  predicate OneLine(row: Row, dollars: Dollars)
  {
    '\n' !in row.origin && '\n' !in row.dest && '\n' !in row.link && '\n' !in dollars(row.price)
  }

  predicate SectionsOneLine(sections: seq<Titled>, dollars: Dollars)
  {
    forall i :: 0 <= i < |sections| ==>
      '\n' !in sections[i].0 && forall k :: 0 <= k < |sections[i].1| ==> OneLine(sections[i].1[k], dollars)
  }

  lemma ItemOneLine(row: Row, dollars: Dollars)
    requires OneLine(row, dollars)
    ensures '\n' !in Item(row, dollars)
  {
  }

  lemma SectionPartsOneLine(title: string, rows: seq<Row>, dollars: Dollars)
    requires '\n' !in title
    requires forall k :: 0 <= k < |rows| ==> OneLine(rows[k], dollars)
    ensures forall p :: p in SectionParts(title, rows, dollars) ==> '\n' !in p
  {
    ItemsInOrder(rows, dollars);
    forall k | 0 <= k < |rows|
      ensures '\n' !in Items(rows, dollars)[k]
    {
      ItemOneLine(rows[k], dollars);
    }
  }

  lemma {:induction false} SectionsPartsOneLine(sections: seq<Titled>, dollars: Dollars)
    requires SectionsOneLine(sections, dollars)
    ensures forall p :: p in SectionsParts(sections, dollars) ==> '\n' !in p
  {
    if sections != [] {
      var init := sections[..|sections| - 1];
      var last := sections[|sections| - 1];
      assert forall i :: 0 <= i < |init| ==> init[i] == sections[i];
      SectionsPartsOneLine(init, dollars);
      SectionPartsOneLine(last.0, last.1, dollars);
    }
  }

  /** When no title, airport, link or price text holds a newline, splitting
      the body on newlines gives back exactly its lines. */
  lemma DigestLines(sections: seq<Titled>, dollars: Dollars)
    requires SectionsOneLine(sections, dollars)
    ensures Split(Join(DigestParts(sections, dollars), "\n"), '\n') == DigestParts(sections, dollars)
  {
    SectionsPartsOneLine(sections, dollars);
    SplitJoin(DigestParts(sections, dollars), '\n');
  }

  /** Every section's lines are among the body's lines. */
  lemma {:induction false} SectionPartIncluded(sections: seq<Titled>, dollars: Dollars, i: nat, p: string)
    requires i < |sections| && p in SectionParts(sections[i].0, sections[i].1, dollars)
    ensures p in SectionsParts(sections, dollars)
  {
    var init := sections[..|sections| - 1];
    if i < |init| {
      assert init[i] == sections[i];
      SectionPartIncluded(init, dollars, i, p);
    }
  }

  /** Every row of every section is written into the body, and so is every
      section's title. */
  lemma EveryRowListed(sections: seq<Titled>, dollars: Dollars, i: nat, k: nat)
    requires i < |sections| && k < |sections[i].1|
    ensures IsInfix(Item(sections[i].1[k], dollars), Join(DigestParts(sections, dollars), "\n"))
    ensures IsInfix(OpenSection(sections[i].0), Join(DigestParts(sections, dollars), "\n"))
  {
    var title, rows := sections[i].0, sections[i].1;
    var parts := DigestParts(sections, dollars);
    ItemsInOrder(rows, dollars);
    assert Item(rows[k], dollars) in Items(rows, dollars);
    SectionPartIncluded(sections, dollars, i, Item(rows[k], dollars));
    SectionPartIncluded(sections, dollars, i, OpenSection(title));
    assert Item(rows[k], dollars) in parts && OpenSection(title) in parts;
    var a :| 0 <= a < |parts| && parts[a] == Item(rows[k], dollars);
    var b :| 0 <= b < |parts| && parts[b] == OpenSection(title);
    JoinContains(parts, "\n", a);
    JoinContains(parts, "\n", b);
  }
}
