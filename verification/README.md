# Community vote widget — a Dafny model

On a blog post, each "community section" lets a reader vote on a stock:
Strong Buy, Buy, Hold, Sell or Strong Sell. It hides the vote form for
thirty minutes after a recorded vote. `vote-script.js` stores the vote,
with its time, in the browser's local storage. Whenever the page loads
less than thirty minutes after the vote, the section shows only the
results panel, headed by a "Thanks for participating!" message. The first
load after that deletes the record and shows the form again.

Every load also draws the tally fetched from the server: each option's
count, its share of the total in percent, and the total. Narrow viewports
get bars; wider ones get rings.

This project models two parts of that script as pure functions over
immutable data:

- `wrappers.dfy`: module `Wrappers`, the `Option` type.
- `status_messages.dfy`: module `StatusMessages`. The children of the
  results panel, and the replacement of the thanks message: remove the
  first one, insert a new one at the front.
- `poll_results.dfy`: module `PollResults`. The arithmetic of the results
  view:
  - the filter that drops the `lastUpdate` and `totalVotes` metadata keys;
  - the total;
  - each option's exact percentage;
  - the lookup in the five-option table, where an unknown key makes the
    render fail;
  - the choice between bar and ring layout.
- `vote_widget.dfy`: module `VoteWidget`. One section's state: its
  storage, which view is visible, the panel's children, the loading
  indicator, and the tally on screen. It also holds the start-up cooldown
  decision, a vote submission, and the two view switches.

Time, the vote request's response, the fetched snapshot and the viewport
width are parameters. Storage is a map from key to the parsed record.

A vote request that returns a non-2xx status shows no alert and changes
nothing (line 32). The error alert appears only when something inside the
`try` throws (lines 41-43): the request itself, or the storage write after
a 2xx response. `SubmitVote` takes whether storage accepts the write as the
parameter `writable`.

## Model

| member | source | states |
|---|---|---|
| StatusMessages.RemoveFirstThanks | vote-script.js:84-87 | Removes at most one thanks message; a panel without one is unchanged, and a panel with one or more shrinks by exactly one |
| StatusMessages.RemoveFirstThanksCounts | vote-script.js:84-87 | Removing the first thanks message lowers the number of thanks messages by one and leaves every other child, in order, as it was |
| StatusMessages.RemoveFirstThanksSplit | vote-script.js:84-87 | It is the first thanks message that goes: before ++ [thanks] ++ after becomes before ++ after when `before` holds none |
| StatusMessages.ShowThanks | vote-script.js:84-89 | After the status update the panel starts with the thanks message, has exactly one when it had at most one before, and keeps all other children in order |
| StatusMessages.ShowThanksIdempotent | vote-script.js:84-89 | Showing the thanks message twice gives the same panel as showing it once |
| StatusMessages.ShowThanksLeavesOne | vote-script.js:84-89 | Starting from at most one thanks message, the updated panel has exactly one, at the front |
| PollResults.ParseChoice | vote-script.js:121-134 | Looking a key up in the option table finds the option whose key it is, or nothing when no option has that key |
| PollResults.ParseChoiceKey | vote-script.js:121-127 | Each option's key finds that option again |
| PollResults.VoteData | vote-script.js:116-118 | The vote entries are exactly the snapshot entries whose key is neither `lastUpdate` nor `totalVotes` |
| PollResults.VoteDataConcat | vote-script.js:116-118 | The filter keeps snapshot order: filtering a concatenation concatenates the filtered parts |
| PollResults.VoteDataWithoutMetadata | vote-script.js:116-118 | A snapshot without metadata keys passes the filter unchanged |
| PollResults.SumOfVoteData | vote-script.js:116-119 | The sum over the filtered entries equals the snapshot's total with metadata counted as zero |
| PollResults.SumAppend | vote-script.js:119 | Adding one more entry adds its count to the sum |
| PollResults.CountAtMostSum | vote-script.js:119 | No single count exceeds the total |
| PollResults.TotalVotes | vote-script.js:119 | The left-to-right accumulation yields the sum of all the counts |
| PollResults.Percent | vote-script.js:133 | With no votes the share is 0; otherwise share × total = count × 100; the share is never negative and at most 100 when the count is within the total |
| PollResults.RowsFor | vote-script.js:131-134 | Rows exist exactly when every vote key is a known option; the row at position i is that entry's option and count, with its share of the total |
| PollResults.Render | vote-script.js:114-134 | The view exists exactly when every vote key is a known option; it has one row per vote entry, in order; its total is the snapshot's metadata-free total; it uses bars exactly at widths up to 767 (`LayoutFor`, line 129); with a zero total every share is 0 |
| PollResults.RowsAreOptions | vote-script.js:116-134 | Every drawn row is one of the five options and comes from a snapshot entry, never from metadata |
| PollResults.PercentsBounded | vote-script.js:133 | Every drawn share lies between 0 and 100 |
| PollResults.PercentsSumToHundred | vote-script.js:119-133 | When the total is positive, the exact shares add up to 100 |
| PollResults.RowsPercentSum | vote-script.js:119-133 | Rows that each hold their entry's share of a positive total have shares adding up to 100 |
| PollResults.PercentSumScaled | vote-script.js:133 | The sum of the shares times the total is 100 times the sum of the counts |
| PollResults.ScaledShares | vote-script.js:133 | Each row's share times a positive total is 100 times its count |
| PollResults.MetaValuesIgnored | vote-script.js:116-119 | Snapshots that differ only in their metadata values give the same vote entries and the same view at every width |
| PollResults.ExampleTally | vote-script.js:116-134 | Three votes for Strong Buy and one for Buy, between the two metadata entries, draw 75, 25, 0, 0, 0 percent out of 4, as bars up to 767 pixels and as rings beyond |
| PollResults.ExampleAllZero | vote-script.js:133 | With all five counts zero the view exists, its total is 0 and every share is 0 |
| PollResults.ExampleUnknownKeyFails | vote-script.js:134 | A count under an unknown key makes the whole render fail, even next to a known option |
| VoteWidget.VoteKey | vote-script.js:14 | The storage key starts with `vote_` and ends with the encoded page address |
| VoteWidget.VoteKeyInjective | vote-script.js:14 | On one page, sections with different symbols get different storage keys |
| VoteWidget.ShowOnlyResults | vote-script.js:67-91 | The results view becomes visible. When a vote is recorded, the panel is headed by a thanks message and keeps its other children; with no record the panel is untouched. Storage is unchanged |
| VoteWidget.ShowVoteForm | vote-script.js:93-99 | The form becomes visible; storage, panel, loading indicator and tally are untouched |
| VoteWidget.CheckVoteStatus | vote-script.js:49-65 | Results are shown exactly when a record exists and is under thirty minutes old (`WithinCooldown`, the strict test of line 56); results are headed by a thanks message, and the number of thanks messages stays the same, or becomes one if there were none; afterwards the key is stored exactly when results are shown; an expired record is deleted; no other key is touched |
| VoteWidget.FetchResults | vote-script.js:101-112 | A fetched snapshot that renders replaces the tally on screen; a failed fetch or a failed render leaves everything as it was |
| VoteWidget.SubmitVote | vote-script.js:23-47 | The loading indicator ends hidden. An alert appears exactly when the request throws, or when the storage write after a 2xx response throws. A 2xx response (`IsOk`, line 32) that storage accepts stores the vote with the current time, refreshes the tally and shows results headed by the thanks message, with no second thanks message added. Any other outcome changes nothing else. Other keys are never touched |
| VoteWidget.Load | vote-script.js:223-224 | Start-up makes the cooldown decision, with its view, storage and panel, leaves the loading indicator as it was, and then draws the fetched tally whatever that decision was |
| VoteWidget.CooldownBoundary | vote-script.js:56-60 | The cooldown is 1,800,000 ms and strict: one millisecond before it ends results stay, at the boundary the record is deleted and the form returns |
| VoteWidget.CheckKeepsLiveStorage | vote-script.js:50-63 | Without a record, or with a live one, the start-up decision leaves storage unchanged |
| VoteWidget.CheckVoteStatusIdempotent | vote-script.js:49-65 | Making the start-up decision twice at the same moment gives the same state as making it once |
| VoteWidget.ExpiryIsPermanent | vote-script.js:56-60 | Once a start-up shows the form, every later start-up shows the form too |
| VoteWidget.VoteThenReload | vote-script.js:32-57 | After a successful vote, a reload shows results exactly while less than thirty minutes have passed, and deletes the record afterwards |
| VoteWidget.ReloadAfterVote | vote-script.js:32-89 | A reload inside the cooldown of a recorded vote shows results with exactly one thanks message at the head, the rest of the panel as before the vote, and the loading indicator down |
| VoteWidget.FailedVoteChangesNothing | vote-script.js:32-46 | A vote that is not recorded (no 2xx response, or a storage write that throws) leaves storage and the view as they were, so the next start-up decides as if it never happened |
| VoteWidget.SectionsIndependent | vote-script.js:8-14 | A vote in one section does not change another section's start-up decision on the same post |
| VoteWidget.LoadDrawsRegardlessOfCooldown | vote-script.js:223-224 | The tally drawn at start-up does not depend on storage or the clock |

## Left out

- The activation guards (lines 2-4) and the section lookup with its `data-symbol` check (6-10). Each section is modelled alone, with its key as input.
- The button wiring (lines 16-21). A click is a call to `SubmitVote` with the button's option.
- The network: both requests are parameters. The vote request is a `VoteResponse` and the results request is an `Option<Snapshot>`, where `None` stands for any failure, JSON parsing included. The request URLs are not modelled.
- The clock (`new Date().getTime()`) is the parameter `now`. `encodeURIComponent(window.location.href)` is the parameter `encodedHref`.
- Local storage holds parsed records. JSON serialisation is not modelled, and a record whose timestamp is not a number is not modelled either.
- Storage reads are assumed to succeed. `localStorage.getItem` at line 50 can throw when storage is disabled. Nothing catches that, so start-up would stop before `fetchResults()` (line 224) and before any later section; this is not modelled. A failing write (line 33) is modelled, through `writable`.
- The DOM. Visibility is the single `view` field. The loading indicator's display is a boolean, and only its final value is a model state. The tally on screen is the last `Tally` that rendered, not its markup. Missing elements (a `null` from `querySelector`) and the `TypeError` they would raise are not modelled.
- The panel search. `querySelector('.vote-status')` searches all descendants; the model searches only the panel's direct children, which is where the script inserts the message.
- The markup and styling of the results (lines 136-192): emoji, labels, colours, the ring's circumference and offset (`Math.PI`), and the text of line 194.
- PollResults.Percent: the share is exact, not the `toFixed(1)` string with one decimal the script draws, because string rounding of binary floating point is not modelled.
- The last-update line (lines 196-209), which formats a date in the New York time zone.
- The resize handler (lines 212-221). It re-renders from the stored vote record rather than from a snapshot, and its debounce is a timer.
- The order of concurrent events. A second click while a vote is pending, or the start-up fetch finishing after a vote, is not modelled; each operation runs to completion.
- Snapshot values are natural numbers. `Number(count)` on non-numeric or negative values is not modelled.
- Snapshot keys named after `Object.prototype` members (such as `toString`). They would find an inherited value in the option table instead of failing; every key other than the five option keys is treated as unknown.
