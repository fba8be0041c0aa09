# Release-notes generator: a verified model of its core

The program asks whether the local `live` and `master` branches are up to date,
reads `git log live..master`, pulls the ticket keys `GCW-<digits>` out of the
commit lines, asks the JIRA tracker for each ticket's summary, and prints a
markdown list of the tickets under the heading `# Tickets affected by this
release`. This project models that pipeline (all of it in `index.js`) in Dafny
and proves what it promises.

- `lines.dfy` (`Lines`): JavaScript's `split('\n')` and `join('\n')`, and the
  round trips between them.
- `seqs.dfy` (`Seqs`): lodash's `_.uniq` (keep the first occurrence) and the
  positions of first occurrences.
- `extraction.dfy` (`Extraction`): the regular expression `/GCW-\d+/` (leftmost
  match, greedy digits, not anchored to a word) and the lodash chain
  split, filter, map, uniq.
- `summaries.dfy` (`Summaries`): the loop that looks every ticket up in turn
  and fills the `summaries` dictionary. The tracker is a function parameter
  `findIssue` that returns an issue or a rejection.
- `render.dfy` (`Render`): the list item template, the join, the heading block.
- `confirm.dfy` (`Confirm`): the answer defaulting and the confirmation rule.
- `release_notes.dfy` (`ReleaseNotes`): `generateMarkdown` as a method, and the
  block that triggers it, with its exit code and printed lines.
- `scenarios.dfy` (`Scenarios`): small concrete inputs.
- `wrappers.dfy` (`Wrappers`): `Option` and `Result`.

Facts about `index.js` that the model keeps:
- There is no early exit on an empty ticket list. The tracker prompts still
  happen, and the document is rendered with an empty list.
- There is no not-found placeholder summary. Every rejected lookup, an unknown
  ticket included, ends the run with exit code 1.
- The prefix `GCW` and the host `jira.crossroads.org.hk` are hard-coded.
- There is no repository, version, timestamp or remote URL header. The document
  is only the heading and the list.
- Summaries are not trimmed.

Two JavaScript details are modelled as the language behaves:
- `_.get(issue, 'fields.summary', '')` replaces only an `undefined` value. A
  `null` summary is stored as null and prints as `null`.
- `[].join('\n')` is `""`, but `"".split('\n')` is `[""]`.

## Model

| member | source | states |
|---|---|---|
| `Lines.Split` | index.js:60 | `split('\n')` yields at least one piece, and no piece contains a newline |
| `Lines.Join` | index.js:94 | `join('\n')`: `""` for no lines; otherwise the result starts with the first line, followed by a newline when more lines follow (the full round trip is `Lines.SplitJoin`) |
| `Lines.JoinSplit` | index.js:60 | joining the pieces of a split with newlines gives back the original text, for every text |
| `Lines.SplitJoin` | index.js:94 | splitting the newline-join of a non-empty list of newline-free lines gives back exactly that list |
| `Seqs.Uniq` | index.js:63 | `_.uniq` keeps exactly the elements of its input, with no element twice |
| `Seqs.UniqFirstSeenOrder` | index.js:63 | `_.uniq` keeps elements in the order of their first occurrence in the input |
| `Seqs.UniqOfDistinct` | index.js:63 | `_.uniq` returns a duplicate-free sequence unchanged, so it is idempotent |
| `Extraction.HasMatch` | index.js:61 | `/GCW-\d+/.test(str)`: true exactly when some stretch of the line is `GCW-` followed by one or more digits |
| `Extraction.FirstMatch` | index.js:62 | the group of `/(GCW-\d+)/.exec(line)`, or None when there is no match; a found key starts with `GCW-` and is longer than the prefix |
| `Extraction.KeepMatching` | index.js:61 | `.filter(str => /GCW-\d+/.test(str))`: every kept line matches and is a line of the input, every matching input line is kept, and no more lines come out than went in (the order is proved by `Extraction.MatchesAreSomes`) |
| `Extraction.MatchTexts` | index.js:62 | `.map(str => /(GCW-\d+)/.exec(str)[1])` over matching lines: one key per line, the line's first match |
| `Extraction.Matches` | index.js:61-62 | the filter followed by the map: at most one key per log line, each key the first match of some line (the exact value, in line order, is proved by `Extraction.MatchesAreSomes`) |
| `Extraction.Extract` | index.js:59-64 | the whole chain split, filter, map, uniq: a duplicate-free list of keys, each the first match of some log line |
| `Extraction.DigitRun` | index.js:62 | the greedy `\d+` takes every digit from its start up to the first non-digit or the end of the line |
| `Extraction.Search` | index.js:61-62 | the regex scan returns the leftmost position where `GCW-` is followed by a digit, and None only when there is no such position |
| `Extraction.FirstMatchSpec` | index.js:61-62 | the regex test fails exactly when exec finds nothing; exec's group is a `GCW-<digits>` key at the leftmost match position, with all of the digits that follow |
| `Extraction.LaterTextIgnored` | index.js:62 | a line yields only its first match: text appended after it that does not start with a digit, further keys included, does not change the key the line yields |
| `Extraction.MatchesAreSomes` | index.js:61-62 | filtering on `test` and then mapping `exec` keeps the first match of every line that has one, in line order |
| `Extraction.ExtractNoDuplicates` | index.js:63 | the extracted ticket list has no duplicates |
| `Extraction.ExtractMembership` | index.js:59-64 | soundness and completeness: a key is extracted exactly when it is the first match of some log line |
| `Extraction.ExtractOrder` | index.js:59-64 | extracted tickets appear in the order of the first log line that yields each of them |
| `Extraction.NoMatchingLineNoTickets` | index.js:61 | a log with no line containing `GCW-<digit>` yields an empty ticket list |
| `Extraction.ExtractWellFormed` | index.js:59-64 | every extracted ticket has the form `GCW-` followed by one or more digits |
| `Summaries.SummaryOf` | index.js:89 | `_.get(issue, 'fields.summary', '')`: `""` when the field is undefined, null kept as null (the default replaces only `undefined`), the text otherwise |
| `Summaries.Resolved` | index.js:84-90 | the dictionary the loop leaves when every lookup succeeds: its keys are exactly the tickets, and each ticket maps to the summary of its issue |
| `Summaries.CollectSummaries` | index.js:84-90 | looks tickets up in order and stops at the first rejection. It succeeds exactly when every lookup succeeds; the dictionary then has one entry per ticket, the looked-up summary, or `""` when the field is undefined. A failure returns the first rejection's message, with the tickets fetched up to and including the failing one |
| `Render.Interpolated` | index.js:94 | `${summaries[ticket]}`: the text of a string summary, `null` for a null summary, `undefined` for a ticket missing from the dictionary |
| `Render.BrowseUrl` | index.js:94 | the link target, a page on the hard-coded tracker host: it ends with the ticket |
| `Render.TicketLine` | index.js:94 | the template line of one ticket: it starts with `- [` and ends with the ticket's interpolated summary |
| `Render.TicketLines` | index.js:94 | `_.map(tickets, ticket => ...)`: one template line per ticket, in ticket order |
| `Render.TicketList` | index.js:94 | the template lines joined with newlines: empty exactly when there are no tickets, otherwise starting with the first ticket's line |
| `Render.Document` | index.js:95-99 | the returned template: it starts with the fixed block (newline, heading, two newlines), ends with a newline, and holds the ticket list between them, so it is four characters plus the heading longer than the list |
| `Render.TicketLineReadBack` | index.js:94 | for a ticket without `]` (every extracted ticket qualifies, see `Extraction.TicketHasNoNewline`), a list item's link text is its ticket, and the item ends with the ticket's printed summary |
| `Render.DocumentLines` | index.js:95-99 | the document's lines are a blank line, the fixed heading, a blank line, the list's lines, and a final blank line |
| `Render.OneLinePerTicket` | index.js:94-99 | a non-empty list whose tickets and printed summaries contain no newline renders as exactly one line per ticket, in ticket order, each the ticket's template line |
| `Render.ItemsLinkTickets` | index.js:94-99 | for a non-empty ticket list whose tickets contain no newline or `]` and whose printed summaries contain no newline (no tickets: `Render.EmptyTicketList`): after the heading block, the i-th document line is the i-th ticket's template line and its link text is the i-th ticket; the document has four lines more than there are tickets |
| `Render.EmptyTicketList` | index.js:94-99 | no tickets render as the empty string inside the fixed heading block |
| `Confirm.Answer` | index.js:31 | the logical-or fallback to `defaultAnswer`: the default exactly for an empty reply, the reply as typed otherwise |
| `Confirm.Proceeds` | index.js:43 | the run goes on only for `y` or `Y`, so a proceeding answer is one character long |
| `Confirm.AnswerDefaulting` | index.js:31 | the answer comes out as the default exactly when the reply is empty or is the default itself |
| `Confirm.ConfirmationRule` | index.js:41-45 | with default `Y`, the run proceeds exactly for an empty reply, `y` or `Y`, and not for `yes` |
| `ReleaseNotes.FetchNotice` | index.js:87 | the notice printed before each lookup, `--> Fetching ticket ` followed by the ticket: it ends with the ticket |
| `ReleaseNotes.FetchNotices` | index.js:86-87 | the notices the loop prints: one per ticket looked up, in order, each the ticket's fetch notice |
| `ReleaseNotes.GenerateMarkdown` | index.js:40-100 | declines without lookups when the defaulted answer is not `y`/`Y`. Otherwise it returns the rendered document of the extracted tickets and their summaries exactly when every lookup succeeds, and otherwise the first rejection, having fetched tickets only up to it |
| `ReleaseNotes.Run` | index.js:106-117 | exit code 0 with nothing printed apart from the prompt when declined. Exit 0 with the fetch notices and the separator-framed markdown when all lookups succeed. Exit 1 with the fetch notices up to the failing ticket and its error message, and no markdown, otherwise |
| `ReleaseNotes.GeneratedMarkdownLines` | index.js:59-99 | the printed markdown has one list item per extracted ticket, in extraction order, each the ticket's template line with the ticket as link text, when at least one ticket is extracted and no summary spans several lines |
| `Scenarios.UnanchoredMatch` | index.js:61-62 | `xGCW-1` yields `GCW-1`: the pattern is not anchored to a word |
| `Scenarios.TwoKeysOneLine` | index.js:62 | `GCW-12 GCW-3` yields only `GCW-12` |
| `Scenarios.PrefixWithoutDigits` | index.js:61 | `GCW-x` yields nothing |
| `Scenarios.RepeatedTicketListedOnce` | index.js:59-64 | a log naming `GCW-7` on two lines yields `[GCW-7]` |

## Left out

- The `readline` prompts, the muted password echo (`mutableStdout`, lines 13-33) and the `--> ...` prompt lines are terminal I/O. The reply to the confirmation question is a parameter. The JIRA username and password only reach the tracker client, and are not modelled.
- The `execSync` call to `git log` (lines 49-55) runs an external process. Its output is the `log` parameter, as text. A failing `git` command would also end in the top-level catch with exit code 1. That path is not modelled.
- The `JiraClient` construction and the network calls of `findIssue` (lines 72-79, 88) are replaced by the `findIssue` function parameter. That parameter returns, for each ticket, the issue or the rejection's `toString()` text. Because it is a function, repeated lookups of one ticket agree.
- Only the value found at `fields.summary` is modelled, as undefined, null or text. A non-string summary (a number, an object) is not modelled.
- `Render.OneLinePerTicket`, `Render.ItemsLinkTickets` and `ReleaseNotes.GeneratedMarkdownLines` assume summaries without newlines. A summary with a newline splits its list item over several lines.
- `process.exit` and `console.log` (lines 44, 106-116) become the exit code and the list of printed strings returned by `ReleaseNotes.Run`.
- Async/await ordering: the loop awaits each lookup before the next one, and the model is sequential.
- `lib/mailer.js` is not part of this model. It only wraps an external mail service.
