/**
 * Markdown rendering: one list item per ticket, linking to the tracker,
 * joined by newlines and placed under a fixed heading.
 */
module Render {
  import opened Lines
  import opened Summaries

  /** The hard-coded tracker host of the links. */
  const Host: string := "jira.crossroads.org.hk"

  /** The fixed heading above the list. */
  const Heading: string := "# Tickets affected by this release"

  /**
   * `${summaries[ticket]}`: how a template literal prints the dictionary entry;
   * a missing entry is `undefined` and a null one `null`.
   */
  function Interpolated(summaries: map<string, Summary>, ticket: string): (r: string)
    ensures ticket !in summaries ==> r == "undefined"
    ensures ticket in summaries && summaries[ticket].Str? ==> r == summaries[ticket].text
    ensures ticket in summaries && summaries[ticket].NullSummary? ==> r == "null"
  {
    if ticket !in summaries then "undefined"
    else match summaries[ticket]
      case Str(s) => s
      case NullSummary => "null"
  }

  /** The ticket's page on the tracker. */
  function BrowseUrl(ticket: string): (r: string)
    ensures |ticket| < |r| && r[|r| - |ticket|..] == ticket
  {
    "https://" + Host + "/browse/" + ticket
  }

  /** The list item of one ticket: a link to its page on the tracker, then its summary. */
  function TicketLine(ticket: string, summaries: map<string, Summary>): (r: string)
    ensures 3 <= |r| && r[..3] == "- ["
    ensures |Interpolated(summaries, ticket)| < |r|
    ensures r[|r| - |Interpolated(summaries, ticket)|..] == Interpolated(summaries, ticket)
  {
    "- [" + ticket + "](" + BrowseUrl(ticket) + ") " + Interpolated(summaries, ticket)
  }

  /** `_.map(tickets, ticket => ...)`: the list items, in ticket order. */
  function TicketLines(tickets: seq<string>, summaries: map<string, Summary>): (r: seq<string>)
    ensures |r| == |tickets|
    ensures forall i :: 0 <= i < |tickets| ==> r[i] == TicketLine(tickets[i], summaries)
  {
    seq(|tickets|, i requires 0 <= i < |tickets| => TicketLine(tickets[i], summaries))
  }

  /** Line 94: the list items joined by newlines. */
  function TicketList(tickets: seq<string>, summaries: map<string, Summary>): (r: string)
    ensures r == "" <==> tickets == []
    ensures tickets != [] ==> TicketLine(tickets[0], summaries) <= r
  {
    Join(TicketLines(tickets, summaries))
  }

  /** Lines 95-99: the list under the heading, with the template's blank lines. */
  function Document(ticketList: string): (r: string)
    ensures |r| == |Heading| + |ticketList| + 4
    ensures r[..|Heading| + 3] == "\n" + Heading + "\n\n" && r[|r| - 1] == Newline
    ensures r[|Heading| + 3..|r| - 1] == ticketList
  {
    "\n" + Heading + "\n\n" + ticketList + "\n"
  }

  /** The text of `s` before the first `c`, or all of `s` when there is none. */
  function TakeUntil(s: string, c: char): (r: string)
    ensures c !in r
  {
    if s == [] || s[0] == c then [] else [s[0]] + TakeUntil(s[1..], c)
  }

  /** The link text of a list item: what stands between `- [` and the first `]`. */
  function LinkText(line: string): (r: string)
  {
    if |line| >= 3 && line[..3] == "- [" then TakeUntil(line[3..], ']') else ""
  }

  lemma {:induction false} TakeUntilPrefix(a: string, c: char, b: string)
    requires c !in a
    ensures TakeUntil(a + [c] + b, c) == a
  {
    if a != [] {
      assert (a + [c] + b)[1..] == a[1..] + [c] + b;
      TakeUntilPrefix(a[1..], c, b);
      assert a == [a[0]] + a[1..];
    }
  }

  /** Reading back a list item whatever its link target and summary. */
  lemma ItemReadBack(ticket: string, url: string, summary: string)
    requires ']' !in ticket
    ensures var line := "- [" + ticket + "](" + url + ") " + summary;
            LinkText(line) == ticket && |summary| <= |line| && line[|line| - |summary|..] == summary
  {
    var line := "- [" + ticket + "](" + url + ") " + summary;
    var rest := "(" + url + ") " + summary;
    assert "](" == [']'] + "(";
    assert line == "- [" + (ticket + [']'] + rest);
    assert line[..3] == "- [";
    assert line[3..] == ticket + [']'] + rest;
    TakeUntilPrefix(ticket, ']', rest);
  }

  /**
   * A list item can be read back: its link text is the ticket (a ticket key
   * never contains `]`), and it ends with the ticket's summary as printed.
   */
  lemma TicketLineReadBack(ticket: string, summaries: map<string, Summary>)
    requires ']' !in ticket
    ensures LinkText(TicketLine(ticket, summaries)) == ticket
    ensures var line, s := TicketLine(ticket, summaries), Interpolated(summaries, ticket);
            |s| <= |line| && line[|line| - |s|..] == s
  {
    ItemReadBack(ticket, BrowseUrl(ticket), Interpolated(summaries, ticket));
  }

  /** Splitting a block framed like the document, whatever its heading line. */
  lemma FramedSplit(heading: string, ticketList: string)
    requires Newline !in heading
    ensures Split([Newline] + heading + [Newline, Newline] + ticketList + [Newline]) ==
            ["", heading, ""] + Split(ticketList) + [""]
  {
    var tail := [Newline] + ticketList + [Newline];
    var afterHeading := heading + [Newline] + tail;
    assert [Newline] + heading + [Newline, Newline] + ticketList + [Newline] == "" + [Newline] + afterHeading;
    SplitAtNewline("", afterHeading);
    SplitAtNewline(heading, tail);
    assert tail == "" + [Newline] + (ticketList + [Newline]);
    SplitAtNewline("", ticketList + [Newline]);
    SplitTrailingNewline(ticketList);
  }

  /** The heading block splits into a blank line, the heading and another blank line before the list. */
  lemma DocumentLines(ticketList: string)
    ensures Split(Document(ticketList)) == ["", Heading, ""] + Split(ticketList) + [""]
  {
    assert Newline !in Heading;
    assert "\n\n" == [Newline, Newline];
    assert Document(ticketList) == [Newline] + Heading + [Newline, Newline] + ticketList + [Newline];
    FramedSplit(Heading, ticketList);
  }

  /** Positions in a framed sequence of lines: three heading lines, the items, one closing line. */
  lemma FramedPositions(heading: string, items: seq<string>, lines: seq<string>)
    requires lines == ["", heading, ""] + items + [""]
    ensures |lines| == |items| + 4 && lines[..3] == ["", heading, ""] && lines[|lines| - 1] == ""
    ensures forall i :: 0 <= i < |items| ==> lines[i + 3] == items[i]
  {
  }

  /** A list item stays on one line when neither its ticket nor its printed summary holds a newline. */
  lemma TicketLineOneLine(ticket: string, summaries: map<string, Summary>)
    requires Newline !in ticket
    requires Newline !in Interpolated(summaries, ticket)
    ensures Newline !in TicketLine(ticket, summaries)
  {
    TemplateTextOneLine();
    var u := BrowseUrl(ticket);
    assert Newline !in u;
  }

  /** The fixed text of the list item template holds no newline. */
  lemma TemplateTextOneLine()
    ensures Newline !in "https://" + Host + "/browse/"
    ensures Newline !in "- [" && Newline !in "](" && Newline !in ") "
  {
    var prefix := "https://" + Host + "/browse/";
    forall k | 0 <= k < |prefix|
      ensures prefix[k] != Newline
    {
    }
  }

  /**
   * The rendered document has, after the heading block, exactly one line per
   * ticket, in ticket order, then the final blank line; provided no ticket and
   * no printed summary contains a newline.
   */
  lemma OneLinePerTicket(tickets: seq<string>, summaries: map<string, Summary>)
    requires |tickets| > 0
    requires forall i :: 0 <= i < |tickets| ==> Newline !in tickets[i]
    requires forall i :: 0 <= i < |tickets| ==> Newline !in Interpolated(summaries, tickets[i])
    ensures Split(TicketList(tickets, summaries)) == TicketLines(tickets, summaries)
    ensures Split(Document(TicketList(tickets, summaries))) ==
            ["", Heading, ""] + TicketLines(tickets, summaries) + [""]
  {
    var lines := TicketLines(tickets, summaries);
    forall i | 0 <= i < |lines|
      ensures Newline !in lines[i]
    {
      TicketLineOneLine(tickets[i], summaries);
    }
    SplitJoin(lines);
    DocumentLines(TicketList(tickets, summaries));
  }

  /**
   * Read line by line, the document is the heading block, one list item per
   * ticket in ticket order, each linking to its ticket, and a final blank line.
   */
  lemma ItemsLinkTickets(tickets: seq<string>, summaries: map<string, Summary>)
    requires |tickets| > 0
    requires forall i :: 0 <= i < |tickets| ==> Newline !in tickets[i] && ']' !in tickets[i]
    requires forall i :: 0 <= i < |tickets| ==> Newline !in Interpolated(summaries, tickets[i])
    ensures var lines := Split(Document(TicketList(tickets, summaries)));
            |lines| == |tickets| + 4 &&
            lines[..3] == ["", Heading, ""] && lines[|lines| - 1] == "" &&
            forall i :: 0 <= i < |tickets| ==>
              lines[i + 3] == TicketLine(tickets[i], summaries) && LinkText(lines[i + 3]) == tickets[i]
  {
    OneLinePerTicket(tickets, summaries);
    var lines := Split(Document(TicketList(tickets, summaries)));
    var items := TicketLines(tickets, summaries);
    FramedPositions(Heading, items, lines);
    forall i | 0 <= i < |tickets|
      ensures lines[i + 3] == TicketLine(tickets[i], summaries) && LinkText(lines[i + 3]) == tickets[i]
    {
      assert lines[i + 3] == TicketLine(tickets[i], summaries);
      TicketLineReadBack(tickets[i], summaries);
    }
  }

  /** No tickets render as the empty list: the heading block followed by an empty line. */
  lemma EmptyTicketList(summaries: map<string, Summary>)
    ensures TicketList([], summaries) == ""
    ensures Split(Document(TicketList([], summaries))) == ["", Heading, "", "", ""]
  {
    DocumentLines("");
  }
}
