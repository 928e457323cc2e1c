# Project-board status mover, modelled in Dafny

A GitHub Action that moves an issue's card on an organization's project
board (Projects V2) when the issue is assigned or unassigned.

- **Assignment.** The card moves from one of the watched statuses (the `watch` input, comma-separated, default "Todo") to the target status (`moveTo`, default "In Progress").
- **Last unassignment.** When the last assignee leaves, the card moves back from the target status to the first watched status.
- **Each run:**
  - decides what to move;
  - queries the project;
  - collects the watched cards page by page, following the cursor of each page;
  - finds the issue's card and the project's "Status" field and option;
  - sends one mutation.

  Nothing to do is reported as a skip. Every error is reported as a failure.

There are two entry points:

- the current one: `src/main.js` with `src/utils.js`;
- a legacy one: `src/main.mjs` with `src/utils.mjs`.

The legacy one keeps the empty entries of the watch list. It has no pagination ceiling. It throws on any card without a status on a page it reads, watched or not. It also throws on a card without content, but only when that card comes before the issue's card, because `find` stops at the first match.

The model is a set of Dafny modules:

- `Wrappers`: `Option` and `Result`.
- `Js`: the JavaScript built-ins the code relies on. These are `String.prototype.trim` and `split`, `Array.prototype.find`, the decimal rendering of integers in template literals, and thrown errors. `Join` is not called by the code; it is there to state the round trip of `DelimitJoin`.
- `Const`: the statuses, actions, messages and the ceiling of `src/const.js`.
- `Board`: the GraphQL responses, the event context and the outcome of a run.
- `Utils` and `LegacyUtils`: `invariant` and the string splitters.
- `Main`: the current entry point. It includes `CollectIssues`, a `while` loop proved equal to the recursive specification `Collect`.
- `LegacyMain`: the legacy entry point, with its own imperative collector.
- `MainScenarios`: the runs of the action's test cases, on the same fixtures.
- `Differences`: where the two entry points differ and where they agree. The main result is `RunsAgree`: on a tidy board they reach the same outcome.

The API is a parameter of each run, with three parts:

- the reply to the project query;
- `pages(k)`, the reply to the `k`-th item request, counting from 0;
- the reply to the mutation: `None` means success, and `Some(message)` means the API rejected it.

Three behaviours of the code that are easy to miss:

- A Status field whose `options` list is empty passes `invariant(statusField.options, …)`, because an empty array is truthy. The run then fails with "Status option not found".
- When a page has no `items`, `getProjectIssuesByFilter` returns `undefined`. `run` then fails on `issues.length` with a `TypeError`; it does not skip.
- An "unassigned" event without an assignee list fails in the current entry point with a `TypeError` from `issueAssignees.length`. The legacy one uses `?.length` and resolves a move back.

## Model

| member | source | states |
|---|---|---|
| Utils.Invariant | src/utils.js:11-15 | returns normally exactly when the condition holds, otherwise throws an error named "InvariantError" carrying the message |
| Utils.DelimitString | src/utils.js:17-21 | every piece is non-empty, has no surrounding whitespace and contains no delimiter |
| Utils.DelimitEmptyIffBlank | src/utils.js:17-21 | the result is empty exactly when the text holds nothing but delimiters and whitespace |
| Utils.DelimitConcat | src/utils.js:17-21 | splitting `a + delimiter + b` gives the pieces of `a` followed by those of `b` |
| Utils.DelimitSingle | src/utils.js:17-21 | a text without the delimiter gives no piece when blank, else its trimmed self |
| Utils.DelimitJoin | src/utils.js:17-21 | joining clean pieces with the delimiter and splitting again gives back exactly those pieces |
| Utils.DelimitIdempotent | src/utils.js:17-21 | splitting the re-joined result of a split changes nothing |
| Utils.DelimitWord | src/utils.js:17-21 | a single clean word is the one piece of itself |
| Utils.DelimitDefaultSource | src/utils.js:17-21 | the default watch list "Todo" yields exactly ["Todo"] |
| Utils.DelimitOnlyCommas | src/utils.js:17-21 | a list of blanks and commas yields no status |
| LegacyUtils.Invariant | src/utils.mjs:1-5 | returns normally exactly when the condition holds, otherwise throws a plain "Error" carrying the message |
| LegacyUtils.SplitString | src/utils.mjs:7-11 | every piece is non-empty, trimmed and free of the delimiter |
| LegacyUtils.SplitStringAgrees | src/utils.mjs:7-11 | `splitString` equals `delimitString` on every text and delimiter |
| LegacyUtils.SplitStringKeepsOrder | src/utils.mjs:7-11 | splitting `a,b` gives the pieces of `a` followed by those of `b` |
| Main.CheckProjectNumber | src/main.js:13-16 | passes exactly for a positive integer; otherwise throws an InvariantError whose message names the number |
| Main.RejectedNumberIsNamed | src/main.js:13-16 | zero and negative integers are rejected; the message renders them as "0" or as "-" and the digits, and the digits read back as the magnitude |
| Main.Program | src/main.js:13-16 | an entry point that imports the module and calls `run()`: a bad project number throws at import, outside `run`'s handler; otherwise the outcome is that of one `run` |
| Main.BadProjectNumberStops | src/main.js:13-16 | with a bad project number nothing is written and the error is an uncaught InvariantError |
| Main.GetActionParams | src/main.js:71-90 | throws the TypeError of reading `length` of undefined exactly on "unassigned" without an assignee list; returns something to do only for "assigned" or "unassigned"; "assigned" moves from the parsed watch list to the target; the last unassignment moves from the target back to the first parsed status, or to `undefined` exactly when the watch list is blank |
| Main.MoveBackToFirstWatched | src/main.js:81-89 | when the text before the first comma (or the whole text, when it has no comma) is not blank, the last unassignment moves from the target to that text, trimmed |
| Main.NoActionIff | src/main.js:71-90 | there is nothing to do exactly when the action is not "assigned" and is not an "unassigned" that left no assignee |
| Main.AssignedParams | src/main.js:72-79 | an assignment moves from the parsed watch list to the target, whoever the assignees are |
| Main.DefaultParams | src/main.js:71-90 | with the default inputs an assignment moves "Todo" to "In Progress", and the last unassignment moves "In Progress" back to "Todo" |
| Main.UnassignReverses | src/main.js:81-89 | for a one-word watch list, the last unassignment's move is the assignment's move reversed |
| Main.UnassignWithoutWatchList | src/main.js:81-89 | with a blank watch list, the move-back target is `undefined` |
| Main.GetProject | src/main.js:18-29 | succeeds exactly when the query is answered with a project, and returns it; a rejected query throws its error; a null project throws InvariantError "Project not found" |
| Main.FilterNodes | src/main.js:61-63 | keeps exactly the cards whose status is present and one of the filter's, never more than there were |
| Main.FilterNodesConcat | src/main.js:61-66 | filtering page by page and concatenating is filtering the concatenation |
| Main.CollectFrom | src/main.js:39-40 | the current collector always ends: the ceiling stops it |
| Main.Collect | src/main.js:31-69 | a collection ends with the cards, a thrown error or `undefined`, never still paging; `CollectGathers` and `CollectStopsAt` say which |
| Main.CollectStopsAt | src/main.js:31-69 | when page `k` below the ceiling is the first not asking for another, `k + 1` requests are made and the collection ends as that page says: its rejection, "Project not found" for a null project, `undefined` for a missing item list, and otherwise the watched cards of pages 0 to `k` in order |
| Main.RequestsFrom | src/main.js:39-40 | the requests still to come never take the total past the ceiling, and there is at least one while below it |
| Main.Requests | src/main.js:39-40 | a collection makes between 1 and 500 requests |
| Main.CollectIssues | src/main.js:31-69 | the page loop ends with the value of `Collect`; it makes `Requests` requests, sending `null` first and then the previous page's `endCursor` each time |
| Main.CollectGathers | src/main.js:31-69 | a successful collection holds exactly the watched cards of the requested pages, page after page, in order |
| Main.GatheredFromPages | src/main.js:61-66 | every gathered card is watched and sits on one of the gathered pages |
| Main.CollectSound | src/main.js:61-66 | every card the collector returns is watched and sits on one of the requested pages |
| Main.CollectFromHitsLimit | src/main.js:39-40 | from any request on, the ceiling error is thrown exactly when every page up to the ceiling asks for another; then the requests reach the ceiling |
| Main.CollectHitsLimit | src/main.js:39-40 | "Pagination limit exceeded" is thrown exactly when each of the first 500 pages asks for another, and then 500 requests were made |
| Main.SetStatus | src/main.js:126-147 | the end of a run either fails or sends the mutation; a mutation goes to the project and the found card, and reports a rejection exactly when the API rejects it |
| Main.SetStatusFails | src/main.js:126-136 | no field named "Status" fails with "Status field not found"; a first Status field with null options fails with "Status field has no options"; a Status field whose options all differ from `moveTo` fails with `Status option not found ("moveTo")` |
| Main.MoveCard | src/main.js:112-124 | skips exactly when no collected card carries the issue's number, and then as info; otherwise it fails or writes |
| Main.Run | src/main.js:96-151 | every error inside `run` is caught: the outcome is a skip, a failure or a mutation, and a skip goes to info |
| Main.RunFailures | src/main.js:96-151 | each caught error is reported with its own message: the resolver's, the project query's, the collector's, and the TypeError of reading `length` of `undefined` after a page without an item list; a successful collection goes on to `MoveCard` |
| Main.SkipIgnoresBoard | src/main.js:100-103 | with nothing to do the run skips with "No action required", whatever the board says |
| Main.SkipsPrecedeFieldChecks | src/main.js:112-124 | with no collected card carrying the issue's number the run skips before the field checks: "No issues require watching" for no cards, "Issue not found" otherwise |
| Main.SetStatusJustified | src/main.js:126-143 | a mutation targets the project, the card, the project's "Status" field and the option named `moveTo` |
| Main.SetStatusWrites | src/main.js:126-147 | when the Status field exists and offers the option, the mutation is sent; success reports the success message, rejection reports the API's message |
| Main.MoveCardJustified | src/main.js:117-124 | a write goes to a collected card that carries the issue's number |
| Main.MoveIsJustified | src/main.js:96-151 | a run writes only when the action resolved, the project was found and the collection succeeded; the card is watched, collected and carries the issue's number; the field and option ids are those of "Status" and `moveTo` |
| Main.MovesWhenFound | src/main.js:96-151 | with the issue's card collected and the field and option present, the run writes and reports the success message or the mutation's error |
| Main.RerunDoesNotMove | src/main.js:96-151 | once no card of the issue sits in a watched status, a run writes nothing |
| Main.MovedCardIsNotWatched | src/main.js:61-63 | when every card of the issue sits in a `moveTo` outside the watch list, no card of the issue is watched and the next run writes nothing |
| LegacyMain.SourceStatuses | src/main.mjs:15 | the watch list always has at least one entry |
| LegacyMain.SourceStatusesCount | src/main.mjs:15 | it has one entry more than the text has commas, because empty entries are kept |
| LegacyMain.SourceStatusesPieces | src/main.mjs:15 | each entry is the trimmed piece between two commas, in order, and holds no comma |
| LegacyMain.LegacyCheckProjectNumber | src/main.mjs:17-20 | passes exactly for a positive integer; otherwise throws a plain Error naming the number |
| LegacyMain.LegacyProgram | src/main.mjs:17-20 | a bad project number throws before `main`; otherwise loading the module is one `main` |
| LegacyMain.LegacyParams | src/main.mjs:28-47 | there is something to do exactly for "assigned", or for "unassigned" with no assignee list or an empty one; "assigned" moves from the legacy watch list to the target; a move back goes from the target to the trimmed first comma-separated entry, possibly empty |
| LegacyMain.MoveBackTarget | src/main.mjs:41-45 | the move-back target is the trimmed text before the first comma, or the trimmed whole text when there is no comma |
| LegacyMain.LegacyGetProject | src/main.mjs:49-58 | succeeds exactly with an answered project; a rejected query throws its error; a null project throws a plain Error "Project not found" |
| LegacyMain.LegacyFilter | src/main.mjs:77-80 | throws the TypeError of reading `name` of null exactly when some card has no status; otherwise keeps the same cards as the current filter |
| LegacyMain.LegacyCollect | src/main.mjs:60-88 | a legacy collection never ends with `undefined`; a successful one holds exactly the watched cards of the requested pages, in page order |
| LegacyMain.LegacyCollectFrom | src/main.mjs:60-88 | the legacy collector never returns `undefined` |
| LegacyMain.LegacyCollectGathers | src/main.mjs:60-88 | from any request on, a successful legacy collection holds exactly the watched cards of the requested pages, in order |
| LegacyMain.LegacyCollectStopsAt | src/main.mjs:60-88 | when page `k` is the first within the budget that does not both ask for another and hold a full list, `k + 1` requests are made and the collection ends as that page says: its rejection, a plain "Project not found" Error for a null project, a TypeError for a null item list, a null node list or a card without a status, and otherwise the watched cards of pages 0 to `k` |
| LegacyMain.LegacyRequestsFrom | src/main.mjs:65-85 | the legacy requests never exceed the pages observed |
| LegacyMain.LegacyCollectIssues | src/main.mjs:60-88 | the legacy page loop ends with the value of `LegacyCollect`, sending `null` first and then each page's `endCursor` |
| LegacyMain.LegacyCollectFromSound | src/main.mjs:77-82 | every card the legacy collector returns is watched |
| LegacyMain.LegacyFindIssue | src/main.mjs:115 | a found card is the first card carrying the number, and every card before it has content; not found means every card has content with another number; it throws the TypeError of reading `number` of null exactly when a card without content comes before every card carrying the number |
| LegacyMain.LegacyFindAgrees | src/main.mjs:115 | when every card has content, the legacy lookup finds what the current one finds |
| LegacyMain.LegacyMoveCard | src/main.mjs:110-144 | skips, as a notice, exactly when every collected card has content with another number; a card without content before the issue's card fails with the TypeError; otherwise it fails or writes |
| LegacyMain.LegacyRun | src/main.mjs:94-148 | every error inside `main` is caught: the outcome is a skip, a failure, a mutation or still paging, and a skip goes to a notice |
| LegacyMain.LegacyRunFailures | src/main.mjs:94-148 | the project query's error and the collector's error are each reported with their own message; a successful collection goes on to `LegacyMoveCard` |
| LegacyMain.LegacyMoveIsJustified | src/main.mjs:94-148 | a legacy run writes only to a collected, watched card with the issue's number, through the "Status" field and the target option |
| Differences.ParseDropsEmpties | src/main.mjs:15 | the current watch list is the legacy one without its empty entries; they coincide when the legacy one has none |
| Differences.LeadingCommaParse | src/main.mjs:15 | ",w" is ["", "w"] for the legacy parse and ["w"] for the current one |
| Differences.MoveBackAfterLeadingComma | src/main.mjs:41-45 | with the watch list ",w" the current entry point moves back to "w", the legacy one to the empty status |
| Differences.AbsentAssignees | src/main.mjs:39 | "unassigned" without an assignee list fails in the current entry point and resolves a move back in the legacy one |
| Differences.LegacyKeepsPaging | src/main.mjs:65-85 | while every page asks for another, the legacy collector keeps paging, however many pages it observes |
| Differences.EndlessPaging | src/main.mjs:65-85 | on endless pages the current collector throws the ceiling error after 500 requests, while the legacy one is still paging |
| Differences.CollectorsAgreeFrom | src/main.mjs:60-88 | on tidy pages that end before the ceiling, the legacy and the current collectors return the same thing from any request on |
| Differences.CollectorsAgree | src/main.mjs:60-88 | on tidy pages that end before the ceiling, the two collectors return the same thing |
| Differences.StatuslessCard | src/main.mjs:77-80 | a card without a status on the first page makes the legacy collector throw, while the current one leaves it out |
| Differences.ContentlessCard | src/main.mjs:115 | a card without content ahead of the issue's card makes the legacy lookup throw and its run fail, while the current lookup finds the card and does not skip |
| Differences.NothingToDo | src/main.mjs:98-101 | with nothing to do both skip with "No action required", the current one as info, the legacy one as a notice |
| Differences.ParamsAgree | src/main.mjs:28-47 | with assignees present and no blank watch entry, the two resolvers agree |
| Differences.MoveCardAgrees | src/main.mjs:110-144 | when every collected card has content, the two ends of a run agree up to the skip channel |
| Differences.RunsAgree | src/main.mjs:94-148 | on a tidy board of cards with content, a clean watch list and assignees present, both runs reach the same outcome up to the skip channel |
| MainScenarios.AssignedMovesToInProgress | __tests__/main.test.js:23-39 | issue #1 in "Todo" moves to "In Progress" in "Test Project", with the fixture's ids |
| MainScenarios.CustomTitleIsReported | __tests__/main.test.js:41-61 | the success message names the project's own title, whatever it is |
| MainScenarios.MovesTheWatchedCardAmongOthers | __tests__/main.test.js:63-85 | among cards in "Todo", "In Progress" and "Done", only issue #1's is moved |
| MainScenarios.UnassignedWithAssigneeSkips | __tests__/main.test.js:87-106 | an unassignment that leaves an assignee skips with "No action required" |
| MainScenarios.UnassignedMovesBackToTodo | __tests__/main.test.js:108-129 | the last unassignment moves issue #1 from "In Progress" back to "Todo" |
| MainScenarios.EmptyBoardSkips | __tests__/main.test.js:131-142 | no watched card: skip with "No issues require watching" |
| MainScenarios.OtherIssueSkips | __tests__/main.test.js:144-157 | only another issue's card is watched: skip with "Issue not found" |
| MainScenarios.MissingProjectFails | __tests__/main.test.js:159-167 | a null project fails with "Project not found" |
| MainScenarios.MissingStatusFieldFails | __tests__/main.test.js:169-189 | a project without fields fails with "Status field not found" |
| MainScenarios.StatusFieldWithoutOptionsFails | __tests__/main.test.js:191-207 | a Status field with null options fails with "Status field has no options" |
| MainScenarios.MissingOptionFails | __tests__/main.test.js:209-230 | without an "In Progress" option the run fails with `Status option not found ("In Progress")` |
| MainScenarios.RejectedMutationFails | __tests__/main.test.js:232-246 | a rejected mutation fails with its message after the write was attempted |
| MainScenarios.RejectedItemQueryFails | __tests__/main.test.js:248-259 | a rejected item query fails with its message |

## Left out

- Reading the inputs and the event payload through `@actions/core` and `@actions/github` is not modelled: `src/ctx.js` and `src/main.mjs:10-14` and `22-26`. The context is a parameter of each run, with `watch` and `moveTo` already defaulted. The project number is a parameter as well, and the legacy `Number(…, { required: true })` not marking the input required plays no part.
- Logging is not modelled as a call. `info`, `notice` and `setFailed` become the `Outcome` of a run, together with the channel a skip goes to.
- The GraphQL transport, the query texts under `src/queries/` and the `owner` and `projectNumber` variables are not part of this model. Each request's reply is a parameter, and only the `after` cursor sent with each item request is modelled.
- Both queries start at once under `Promise.all`, and concurrency is left out. When both fail, the model reports the project query's error; in the code, whichever rejects first in time wins.
- The last test case is named after the project query but rejects the item query. Its scenario follows what the test does.
- A null `project.fields` or `fields.nodes` is left out: the code would throw a `TypeError` at `src/main.js:126` and `src/main.mjs:122`, and the model's project always has a list of fields.
- A null `organization` in a response is left out, as are null entries inside `nodes` and a null `pageInfo`. Cards with no content and cards with no status are modelled.
- The issue number is compared to `content.number` with loose `==` in the code. The model compares integers, which is what the API returns.
- Numbers are rendered in template literals only as integers, in decimal, digit by digit. JavaScript writes integers of magnitude 10^21 and above in exponent form (`${-1e21}` is "-1e+21"); the model writes all their digits, so `Main.RejectedNumberIsNamed` and the project-number messages differ from the code for such numbers. A non-integer project number carries its own text as given, because JavaScript's float rendering is not modelled.
- `delimitString` and `splitString` take their delimiter as a single character. The code only ever uses the default `','`.
- The wording of JavaScript `TypeError` messages is V8's, such as "Cannot read properties of undefined (reading 'length')". Other engines word them differently.
- The skip suffix is " – skipping" with an en dash (U+2013), as the test cases expect. The source text shows it as the mis-decoded bytes "â€“".
- LegacyMain.LegacyCollectIssues: the legacy loop has no ceiling. The model observes at most `budget` pages and then reports that it is still paging (`StillPaging`, and `Paging` for a run). The same bound applies to `LegacyMain.LegacyCollectFrom` and `LegacyMain.LegacyRun`, because a Dafny function must end.
- The two `InvariantError` constructor details not modelled are the captured stack trace and the `instanceof` class. Only its name and message are kept.
