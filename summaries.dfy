/**
 * Summary collection: the loop that asks the tracker for each ticket in turn
 * and fills the `summaries` dictionary from ticket key to summary.
 */
module Summaries {
  import opened Wrappers

  /** The value lodash's `_.get` finds at the path `fields.summary` of an issue. */
  datatype FieldValue = Undefined | Null | Text(text: string)

  /** An issue as the tracker client hands it back; only its summary field is read. */
  datatype Issue = Issue(summary: FieldValue)

  /**
   * How `jira.findIssue(ticket)` settles: with the issue, or rejected with an
   * error whose `toString()` is `message` (network, authentication, unknown
   * ticket alike).
   */
  datatype Lookup = Found(issue: Issue) | Failed(message: string)

  /** A value stored in `summaries`: a string, or `null` when the tracker sent a null summary. */
  datatype Summary = Str(text: string) | NullSummary

  /**
   * `_.get(issue, 'fields.summary', '')`: the default replaces only an
   * undefined value, so a null summary is kept as null.
   */
  function SummaryOf(issue: Issue): (r: Summary)
    ensures issue.summary.Undefined? ==> r == Str("")
    ensures r == NullSummary <==> issue.summary.Null?
    ensures issue.summary.Text? ==> r == Str(issue.summary.text)
  {
    match issue.summary
    case Undefined => Str("")
    case Null => NullSummary
    case Text(s) => Str(s)
  }

  /** Every lookup of the given tickets succeeds. */
  predicate AllFound(tickets: seq<string>, findIssue: string -> Lookup)
  {
    forall i :: 0 <= i < |tickets| ==> findIssue(tickets[i]).Found?
  }

  /** The dictionary the loop builds when every lookup succeeds. */
  function Resolved(tickets: seq<string>, findIssue: string -> Lookup): (m: map<string, Summary>)
    requires AllFound(tickets, findIssue)
    ensures forall t :: t in m <==> t in tickets
    ensures forall i :: 0 <= i < |tickets| ==> m[tickets[i]] == SummaryOf(findIssue(tickets[i]).issue)
  {
    map t | t in tickets :: SummaryOf(findIssue(t).issue)
  }

  /**
   * Lines 84-90: look the tickets up one at a time, in order, and record each
   * summary. The first rejected lookup ends the loop and is propagated with
   * nothing recorded; `fetched` lists the tickets looked up, in order.
   */
  method CollectSummaries(tickets: seq<string>, findIssue: string -> Lookup)
    returns (result: Result<map<string, Summary>>, fetched: seq<string>)
    ensures result.Ok? <==> AllFound(tickets, findIssue)
    ensures result.Ok? ==> fetched == tickets && result.value == Resolved(tickets, findIssue)
    ensures result.Ok? ==> forall i :: 0 <= i < |tickets| ==>
      tickets[i] in result.value && result.value[tickets[i]] == SummaryOf(findIssue(tickets[i]).issue)
    ensures result.Err? ==>
              exists k :: 0 <= k < |tickets| && fetched == tickets[..k + 1] &&
                          AllFound(tickets[..k], findIssue) && findIssue(tickets[k]) == Failed(result.error)
  {
    var summaries: map<string, Summary> := map[];
    fetched := [];
    var i := 0;
    while i < |tickets|
      invariant 0 <= i <= |tickets|
      invariant fetched == tickets[..i]
      invariant AllFound(tickets[..i], findIssue)
      invariant summaries == Resolved(tickets[..i], findIssue)
    {
      var ticket := tickets[i];
      fetched := fetched + [ticket];
      var issue := findIssue(ticket);
      if issue.Failed? {
        assert fetched == tickets[..i + 1];
        result := Err(issue.message);
        return;
      }
      assert tickets[..i + 1] == tickets[..i] + [ticket];
      summaries := summaries[ticket := SummaryOf(issue.issue)];
      i := i + 1;
    }
    assert tickets[..i] == tickets;
    result := Ok(summaries);
  }
}
