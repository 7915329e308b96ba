/** `load_subscribers` (newsletter.py:74-80) over the rows `csv.reader`
    yields, and the decision `send_email` makes before it talks to the mail
    server (newsletter.py:93-102). */
module Mailer {
  import opened Outcomes
  import opened Strings

  /** A CSV row is a subscriber row when it is non-empty and its first cell
      contains an at sign. */
  predicate Accepted(row: seq<string>)
  {
    |row| > 0 && '@' in row[0]
  }

  /** The stripped first cells of the accepted rows, in file order. */
  function Subscribers(rows: seq<seq<string>>): (r: seq<string>)
    ensures |r| <= |rows|
  {
    if rows == [] then []
    else
      var row := rows[|rows| - 1];
      Subscribers(rows[..|rows| - 1]) + (if Accepted(row) then [Strip(row[0])] else [])
  }

  /** The loop of `load_subscribers`. */
  method LoadSubscribers(rows: seq<seq<string>>) returns (emails: seq<string>)
    ensures emails == Subscribers(rows)
  {
    emails := [];
    var i := 0;
    while i < |rows|
      invariant 0 <= i <= |rows|
      invariant emails == Subscribers(rows[..i])
    {
      var row := rows[i];
      assert rows[..i + 1][..i] == rows[..i];
      if |row| > 0 && '@' in row[0] {
        emails := emails + [Strip(row[0])];
      }
      i := i + 1;
    }
    assert rows[..i] == rows;
  }

  /** Reading a file in two pieces gives the subscribers of the first piece
      followed by those of the second. */
  lemma {:induction false} SubscribersConcat(a: seq<seq<string>>, b: seq<seq<string>>)
    ensures Subscribers(a + b) == Subscribers(a) + Subscribers(b)
  {
    if b == [] {
      assert a + b == a;
    } else {
      var init := b[..|b| - 1];
      assert (a + b)[..|a + b| - 1] == a + init;
      assert (a + b)[|a + b| - 1] == b[|b| - 1];
      SubscribersConcat(a, init);
    }
  }

  /** Every listed address is the stripped first cell of an accepted row. */
  lemma {:induction false} SubscriberFromRow(rows: seq<seq<string>>, e: string)
    requires e in Subscribers(rows)
    ensures exists i :: 0 <= i < |rows| && Accepted(rows[i]) && e == Strip(rows[i][0])
  {
    var init := rows[..|rows| - 1];
    if e in Subscribers(init) {
      SubscriberFromRow(init, e);
      var i :| 0 <= i < |init| && Accepted(init[i]) && e == Strip(init[i][0]);
      assert rows[i] == init[i];
    } else {
      assert Accepted(rows[|rows| - 1]);
    }
  }

  /** Every accepted row contributes its stripped first cell. */
  lemma {:induction false} RowGivesSubscriber(rows: seq<seq<string>>, i: nat)
    requires i < |rows| && Accepted(rows[i])
    ensures Strip(rows[i][0]) in Subscribers(rows)
  {
    var init := rows[..|rows| - 1];
    if i < |init| {
      assert init[i] == rows[i];
      RowGivesSubscriber(init, i);
    }
  }

  /** Every listed address contains an at sign and has no surrounding white
      space. */
  lemma SubscriberShape(rows: seq<seq<string>>, e: string)
    requires e in Subscribers(rows)
    ensures '@' in e
    ensures e == [] || (!IsSpace(e[0]) && !IsSpace(e[|e| - 1]))
  {
  }

  const Subject := "Weekly Flight Deals"

  /** The message `send_email` would hand to the mail server. */
  datatype Mail = Mail(subject: string, from: string, to: string, recipients: seq<string>, body: string)

  /** The message for the given recipients, or None when there are none: no
      message is built for an empty list. */
  function ComposeEmail(sender: string, recipients: seq<string>, html: string): (r: Option<Mail>)
    ensures r.None? <==> recipients == []
    ensures r.Some? ==> r.value.recipients == recipients && r.value.body == html && r.value.from == sender
  {
    if recipients == [] then None
    else Some(Mail(Subject, sender, Join(recipients, ", "), recipients, html))
  }

  /** `send_email(html_body)` up to the SMTP session: loads the subscribers
      and returns early when there are none. */
  method SendEmail(sender: string, csvRows: seq<seq<string>>, html: string) returns (r: Option<Mail>)
    ensures r == ComposeEmail(sender, Subscribers(csvRows), html)
    ensures r.None? <==> forall i :: 0 <= i < |csvRows| ==> !Accepted(csvRows[i])
  {
    var recipients := LoadSubscribers(csvRows);
    if recipients == [] {
      forall i | 0 <= i < |csvRows|
        ensures !Accepted(csvRows[i])
      {
        if Accepted(csvRows[i]) {
          RowGivesSubscriber(csvRows, i);
        }
      }
      return None;
    }
    SubscriberFromRow(csvRows, recipients[0]);
    r := Some(Mail(Subject, sender, Join(recipients, ", "), recipients, html));
  }

  /** Every recipient's address appears, whole, in the To header. */
  lemma EveryRecipientAddressed(sender: string, recipients: seq<string>, html: string, i: nat)
    requires i < |recipients|
    ensures ComposeEmail(sender, recipients, html).Some?
    ensures IsInfix(recipients[i], ComposeEmail(sender, recipients, html).value.to)
  {
    JoinContains(recipients, ", ", i);
  }
}
