/**
 * The whole run of `generateMarkdown` and of the block that triggers it:
 * confirm, extract the tickets from the git log, collect their summaries,
 * render the markdown, and print it or the error that ended the run.
 */
module ReleaseNotes {
  import opened Wrappers
  import opened Confirm
  import opened Extraction
  import opened Summaries
  import opened Render

  /** How `generateMarkdown` ends. */
  datatype Outcome =
    | Declined                   // `process.exit(0)` after a negative confirmation
    | Aborted(message: string)   // a rejected lookup, propagated out of the function
    | Generated(markdown: string)

  /** The line printed before and after the markdown. */
  const Separator: string := "----------------------------------------------------------------------------"

  /** The notice printed before each lookup (line 87). */
  function FetchNotice(ticket: string): (r: string)
    ensures |ticket| <= |r| && r[|r| - |ticket|..] == ticket
  {
    "--> Fetching ticket " + ticket
  }

  /** The notices the lookup loop prints, one per ticket, in order. */
  function FetchNotices(tickets: seq<string>): (r: seq<string>)
    ensures |r| == |tickets| && forall i :: 0 <= i < |tickets| ==> r[i] == FetchNotice(tickets[i])
  {
    seq(|tickets|, i requires 0 <= i < |tickets| => FetchNotice(tickets[i]))
  }

  /**
   * Lines 40-100. `reply` is what the user typed at the confirmation prompt,
   * `log` the output of `git log live..master`, `findIssue` the tracker's
   * answer for each ticket. `fetched` lists the tickets looked up, in order.
   */
  method GenerateMarkdown(reply: string, log: string, findIssue: string -> Lookup)
    returns (outcome: Outcome, fetched: seq<string>)
    ensures outcome.Declined? <==> !Proceeds(Answer(reply, DefaultAnswer))
    ensures outcome.Declined? ==> fetched == []
    ensures outcome.Generated? <==>
              Proceeds(Answer(reply, DefaultAnswer)) && AllFound(Extract(log), findIssue)
    ensures outcome.Generated? ==>
              fetched == Extract(log) &&
              outcome.markdown == Document(TicketList(Extract(log), Resolved(Extract(log), findIssue)))
    ensures outcome.Aborted? ==>
              exists k :: 0 <= k < |Extract(log)| && fetched == Extract(log)[..k + 1] &&
                          AllFound(Extract(log)[..k], findIssue) &&
                          findIssue(Extract(log)[k]) == Failed(outcome.message)
  {
    var upToDate := Answer(reply, DefaultAnswer);
    if !Proceeds(upToDate) {
      return Declined, [];
    }
    var tickets := Extract(log);
    var collected;
    collected, fetched := CollectSummaries(tickets, findIssue);
    match collected
    case Err(message) =>
      outcome := Aborted(message);
    case Ok(summaries) =>
      outcome := Generated(Document(TicketList(tickets, summaries)));
  }

  /**
   * Lines 106-117: run the generation and report it. Returns the exit code and
   * the lines printed with `console.log` (the prompts aside).
   */
  method Run(reply: string, log: string, findIssue: string -> Lookup)
    returns (exitCode: int, printed: seq<string>)
    ensures !Proceeds(Answer(reply, DefaultAnswer)) ==> exitCode == 0 && printed == []
    ensures Proceeds(Answer(reply, DefaultAnswer)) && AllFound(Extract(log), findIssue) ==>
              exitCode == 0 &&
              printed == FetchNotices(Extract(log)) +
                         [Separator, Document(TicketList(Extract(log), Resolved(Extract(log), findIssue))), Separator]
    ensures Proceeds(Answer(reply, DefaultAnswer)) && !AllFound(Extract(log), findIssue) ==>
              exitCode == 1 &&
              exists k :: 0 <= k < |Extract(log)| && AllFound(Extract(log)[..k], findIssue) &&
                          findIssue(Extract(log)[k]).Failed? &&
                          printed == FetchNotices(Extract(log)[..k + 1]) + [findIssue(Extract(log)[k]).message]
  {
    var outcome, fetched := GenerateMarkdown(reply, log, findIssue);
    match outcome
    case Declined =>
      exitCode, printed := 0, [];
    case Aborted(message) =>
      exitCode, printed := 1, FetchNotices(fetched) + [message];
    case Generated(markdown) =>
      exitCode, printed := 0, FetchNotices(fetched) + [Separator, markdown, Separator];
  }

  /** No summary the tracker returns for these tickets spans several lines. */
  predicate SingleLineSummaries(tickets: seq<string>, findIssue: string -> Lookup)
  {
    forall i :: 0 <= i < |tickets| ==>
      findIssue(tickets[i]).Found? && findIssue(tickets[i]).issue.summary.Text? ==>
        Lines.Newline !in findIssue(tickets[i]).issue.summary.text
  }

  /**
   * The generated markdown, read line by line: the heading block, then one
   * list item per extracted ticket, in extraction order, each linking to that
   * ticket, then a blank line.
   */
  lemma GeneratedMarkdownLines(log: string, findIssue: string -> Lookup)
    requires AllFound(Extract(log), findIssue)
    requires SingleLineSummaries(Extract(log), findIssue)
    requires |Extract(log)| > 0
    ensures var tickets := Extract(log);
            var lines := Lines.Split(Document(TicketList(tickets, Resolved(tickets, findIssue))));
            |lines| == |tickets| + 4 &&
            lines[..3] == ["", Heading, ""] && lines[|lines| - 1] == "" &&
            forall i :: 0 <= i < |tickets| ==>
              lines[i + 3] == TicketLine(tickets[i], Resolved(tickets, findIssue)) &&
              LinkText(lines[i + 3]) == tickets[i]
  {
    ExtractWellFormed(log);
    ResolvedItemsLinkTickets(Extract(log), findIssue);
  }

  lemma ResolvedItemsLinkTickets(tickets: seq<string>, findIssue: string -> Lookup)
    requires forall i :: 0 <= i < |tickets| ==> IsTicket(tickets[i])
    requires AllFound(tickets, findIssue)
    requires SingleLineSummaries(tickets, findIssue)
    requires |tickets| > 0
    ensures var lines := Lines.Split(Document(TicketList(tickets, Resolved(tickets, findIssue))));
            |lines| == |tickets| + 4 &&
            lines[..3] == ["", Heading, ""] && lines[|lines| - 1] == "" &&
            forall i :: 0 <= i < |tickets| ==>
              lines[i + 3] == TicketLine(tickets[i], Resolved(tickets, findIssue)) &&
              LinkText(lines[i + 3]) == tickets[i]
  {
    var m := Resolved(tickets, findIssue);
    assert Lines.Newline !in "null";
    forall i | 0 <= i < |tickets|
      ensures Lines.Newline !in tickets[i] && ']' !in tickets[i]
      ensures Lines.Newline !in Interpolated(m, tickets[i])
    {
      TicketHasNoNewline(tickets[i]);
    }
    ItemsLinkTickets(tickets, m);
  }
}
