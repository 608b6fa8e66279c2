# Polling app core in Dafny

A model of the logic of a small polling web application: the server actions
that create, list, look up and vote on polls, the poll creation form with
its editable option list, and the two voting components that track a
selection, submit votes and show tallies.

The project is organised in modules:

- `Wrappers`: `Option` and `Result`.
- `Text`: JavaScript's `trim` over the white space characters it removes.
- `Forms`: the browser's `FormData` as an ordered list of entries, with
  `get` (first entry with that name) and `append`.
- `Database`: the `Poll`, `PollOption`, `Vote` and `PollWithOptions` rows.
- `Polls`: the server actions.
  - The hosted store is the value `Store`, holding three tables and the
    next identifier it hands out.
  - `createPoll` is both a specification function, `CreatePollOutcome`,
    and a method, `CreatePoll`. The method runs the option-collection loop
    (`CollectOptions`) and is proved equal to the function.
  - The queries are filters and a sort over the tables.
  - `voteOnPoll` inserts one vote record.
- `Tally`: `totalVotes` (a left fold) against a plain sum, and the
  zero-guarded percentage in exact real arithmetic.
- `CreatePollForm`:
  - the option-list edits, as functions and as the class `FormState`;
  - the `forEach` that appends `option-i` entries;
  - the round trip of that encoding through `createPoll`'s scan.
- `PollVoting`: selection toggling, as functions and as the class
  `VotingState`. Its `HandleVote` loop sends one vote per selected id and
  stops at the first failure.
- `SimpleVotingForm`: the radio form as the class `VotingFormState`, plus
  the optimistic counts and percentages shown after voting.

Store calls are not code this model can see, so every write takes the
store's answer as a parameter. A `WriteOutcome` is either `Accepted` or
`Rejected(thrown)`. `HandleVote` takes one answer per vote, as a function
from the vote's position. On acceptance the model applies the insert to the
`Store` value.

Some behaviours of the code that the model keeps as they are:

- A failed option insert leaves the poll row in place; nothing is rolled
  back.
- A multi-vote selection is an ordered list: a click appends the id or
  filters it out.
- The share code comes from the store; nothing in this code makes it
  unique.
- `voteOnPoll` records a vote without checking that the poll or the option
  exists, that the poll is active, or that it has not expired.

## Model

| member | source | states |
|---|---|---|
| Text.TrimStartSpec | src/lib/polls.ts:85-86 | `trimStart` keeps a suffix that does not start with white space and drops only white space |
| Text.TrimEndSpec | src/lib/polls.ts:85-86 | `trimEnd` keeps a prefix that does not end with white space and drops only white space |
| Text.TrimSpec | src/lib/polls.ts:85-86 | the trim has no white space at either end, and is empty exactly when the input is all white space |
| Text.TrimIsSlice | src/lib/polls.ts:86 | the trim is a contiguous slice of its input |
| Text.TrimOfTrimmed | src/lib/polls.ts:86 | a string with no white space at its ends is its own trim |
| Text.TrimIdempotent | src/lib/polls.ts:86 | trimming twice is trimming once |
| Forms.GetFindsFirst | src/lib/polls.ts:75-78 | `get` is null exactly when no entry has the name; otherwise it is the value of the first entry with that name |
| Forms.Append | src/components/CreatePollForm.tsx:41 | `append` keeps every earlier entry and adds the new one at the end |
| Polls.ErrorMessage | src/components/PollVoting.tsx:55 | an `Error` shows its message, and any other thrown value shows the fallback text |
| Polls.Kept | src/lib/polls.ts:84-87 | keeping non-blank trims never yields more options than values scanned |
| Polls.KeptAreTrimmed | src/lib/polls.ts:85-86 | every collected option is non-empty and has no white space at its ends |
| Polls.KeptAppend | src/lib/polls.ts:84-87 | collecting distributes over concatenation, so collected options keep the form's order |
| Polls.KeptOfTrimmed | src/lib/polls.ts:85-86 | values that are already trimmed and non-blank are collected exactly as given |
| Polls.StopFrom | src/lib/polls.ts:83 | the scan stops at the first index at or after the start whose `option-i` is missing or empty; every index before it is truthy |
| Polls.OptionValues | src/lib/polls.ts:84 | the values of `option-from` up to `option-stop`, read in index order |
| Polls.ScanIsKeptPrefix | src/lib/polls.ts:81-89 | the scan yields the non-blank trims of `option-0 … option-(stop-1)`: whitespace-only values are skipped without ending the scan, and nothing after the first missing or empty value is read |
| Polls.ScanStep | src/lib/polls.ts:84-88 | one loop turn (push the non-empty trim, advance the index) keeps "collected so far + rest of the scan" equal to the whole scan |
| Polls.CollectOptions | src/lib/polls.ts:81-89 | the `while` loop collects exactly the options of the scan |
| Polls.ValidationError | src/lib/polls.ts:92-98 | "Poll title is required" exactly when the title is missing or blank; "At least 2 options are required" exactly when the title is present and fewer than 2 options were collected; no error otherwise |
| Polls.BuildPollDraft | src/lib/polls.ts:101-108 | title trimmed; description trimmed, and null exactly when missing or blank; multiple votes as given; no expiry exactly when the field is empty or missing; active; anonymous |
| Polls.BuildOptionRows | src/lib/polls.ts:122-126 | one row per collected option, in order, with the new poll's id, the option's text and 0 votes |
| Polls.StoredOptions | src/lib/polls.ts:128-130 | the store keeps each option row as sent, under consecutive fresh identifiers |
| Polls.InsertPoll | src/lib/polls.ts:110-114 | an accepted poll insert keeps the store's identifier invariant |
| Polls.InsertOptions | src/lib/polls.ts:128-130 | an accepted option insert keeps the store's identifier invariant |
| Polls.CreatePollOutcome | src/lib/polls.ts:74-139 | a missing title and fewer than 2 options fail before any write and leave the store unchanged; a rejected poll insert leaves the store unchanged; a redirect happens only when both writes are accepted and at least 2 options were collected; votes are untouched; the store invariant is kept |
| Polls.PollInsertFailureWritesNothing | src/lib/polls.ts:116-119 | a valid form whose poll insert fails answers "Failed to create poll" and writes nothing, options included |
| Polls.OptionsInsertFailureKeepsPoll | src/lib/polls.ts:128-135 | a valid form whose option insert fails answers "Failed to create poll options"; the new poll row stays, with no option rows |
| Polls.CreatedPollRecord | src/lib/polls.ts:101-138 | a successful creation redirects to the new poll and appends one row created now, with the new id and the share code, whose title is the trimmed title, whose description is the trimmed description or null exactly when it is missing or blank, with `allow_multiple_votes` exactly when the field is "on", the given expiry or null when the field is empty or missing, active and anonymous |
| Polls.CreatedOptionRows | src/lib/polls.ts:122-130 | a successful creation appends exactly one option row per collected option, in order, with the new poll's id, the text and 0 votes, after the existing rows |
| Polls.InsertedOptionRows | src/lib/polls.ts:122-130 | inserting the rows built for the options appends them, in order, after the rows already stored |
| Polls.CreatePoll | src/lib/polls.ts:74-139 | the method (loop, validation, two ordered writes) produces exactly the answer and store of `CreatePollOutcome` |
| Polls.PollsWhere | src/lib/polls.ts:18 | an `.eq` filter keeps exactly the rows that pass |
| Polls.PollsWhereKeepsOrder | src/lib/polls.ts:40 | filtering keeps the table's identifier order |
| Polls.OptionsOf | src/lib/polls.ts:12-16 | the nested selection holds exactly the options of the poll |
| Polls.InsertNewest | src/lib/polls.ts:19 | insertion adds exactly the one poll to the list |
| Polls.InsertNewestKeepsOrder | src/lib/polls.ts:19 | inserting into a newest-first list keeps it newest first |
| Polls.SortNewestFirst | src/lib/polls.ts:19 | the order is by `created_at` descending and is a permutation of the input |
| Polls.WithOptions | src/lib/polls.ts:10-17 | each poll is paired with its own options |
| Polls.GetPolls | src/lib/polls.ts:7-27 | the listing holds only active polls of the table, as many as there are active polls, newest first, each with its own options |
| Polls.SortedMembers | src/lib/polls.ts:19 | sorting keeps exactly the same polls |
| Polls.GetPollsListsEveryActivePoll | src/lib/polls.ts:18 | every active poll is listed |
| Polls.Single | src/lib/polls.ts:41 | `.single()` succeeds exactly when one row matches, fails with "no rows" exactly when none match, and returns that row with its options |
| Polls.GetPoll | src/lib/polls.ts:29-49 | the poll with that id and its options; "no rows" exactly when no poll has the id; in a valid store never "multiple rows" |
| Polls.GetPollByShareCode | src/lib/polls.ts:51-72 | only an active poll with exactly that code is returned, with its options, and it is the only such poll; "no rows" exactly when every poll with that code is inactive |
| Polls.GetPollByShareCodeFinds | src/lib/polls.ts:51-72 | in a valid store, when exactly one active poll has the code, that poll is returned with its options |
| Polls.AcceptVote | src/lib/polls.ts:142-149 | an accepted vote insert keeps the store invariant |
| Polls.VoteOnPoll | src/lib/polls.ts:141-157 | the vote is recorded exactly when the store accepts it: one record appended with the poll, option, user and IP given, polls and options unchanged; otherwise the store's error is rethrown |
| Polls.RecordVotes | src/components/PollVoting.tsx:47-49 | recording votes one after another changes neither polls nor options, and keeps the store invariant |
| Polls.RecordedVotes | src/components/PollVoting.tsx:47-49 | one anonymous vote per selected id is appended, in selection order, with fresh identifiers; earlier votes are kept |
| Tally.ReduceIsSum | src/components/PollVoting.tsx:20 | the fold from any start adds exactly the sum of the counts |
| Tally.TotalVotes | src/components/PollVoting.tsx:20 | `totalVotes` is the sum of all option counts |
| Tally.SumVotesAppend | src/components/PollVoting.tsx:20 | the total of two lists of options is the sum of their totals |
| Tally.TotalBounds | src/components/PollVoting.tsx:20 | with no negative counter, the total is non-negative and bounds every option's count |
| Tally.Percentage | src/components/PollVoting.tsx:81 | 0 when the total is not positive, and otherwise the share that scaled by the total gives votes × 100 |
| Tally.PercentageBounds | src/components/PollVoting.tsx:81 | a count between 0 and the total has a share between 0 and 100 |
| Tally.SumPercentagesScaled | src/components/PollVoting.tsx:81 | the shares scaled by a positive total add up to the sum of counts × 100 |
| Tally.SharesAddUp | src/components/PollVoting.tsx:81 | the displayed shares add up to 100 when any vote is stored, and are all 0 otherwise |
| Tally.AllZeroWithoutTotal | src/components/PollVoting.tsx:81 | with no positive total every share is 0 |
| CreatePollForm.KeepPositionsSplice | src/components/CreatePollForm.tsx:24 | the positional filter is the list with the entry at the index cut out, or the list itself when the index is outside it |
| CreatePollForm.WithoutIndexRemovesExactlyOne | src/components/CreatePollForm.tsx:24 | `filter((_, i) => i !== index)` removes exactly the entry at `index`, and nothing for an index outside the list |
| CreatePollForm.RemoveDeletesExactlyOne | src/components/CreatePollForm.tsx:22-26 | `removeOption(i)` removes exactly entry `i` when more than two options are shown; otherwise the list is unchanged |
| CreatePollForm.EditKeepsBounds | src/components/CreatePollForm.tsx:16-32 | one add, remove or update keeps the list between 2 and 10 options |
| CreatePollForm.EditsKeepBounds | src/components/CreatePollForm.tsx:16-32 | any sequence of edits keeps the list between 2 and 10 options |
| CreatePollForm.InitialEditsKeepBounds | src/components/CreatePollForm.tsx:12-32 | from the initial two empty options, any sequence of edits keeps the list between 2 and 10 options |
| CreatePollForm.OptionEntries | src/components/CreatePollForm.tsx:40-42 | entry `k` of the encoding is `option-k` holding the k-th option |
| CreatePollForm.AppendOptions | src/components/CreatePollForm.tsx:40-42 | the `forEach` appends exactly those entries after the form's own fields |
| CreatePollForm.FirstEmpty | src/lib/polls.ts:83 | the length of the longest prefix of non-empty options |
| CreatePollForm.GetConcat | src/components/CreatePollForm.tsx:40-42 | `get` on appended entries answers from the form's own fields first |
| CreatePollForm.GetEncoded | src/components/CreatePollForm.tsx:40-42 | after the encoding, `option-k` reads back the k-th option, and no other index is present |
| CreatePollForm.ScanEncodedFrom | src/lib/polls.ts:81-89 | the scan of the encoded form from any index before the first empty option collects the kept options from there up to that empty option |
| CreatePollForm.SubmitRoundTrip | src/components/CreatePollForm.tsx:40-42 | what the form encodes, `createPoll` collects as the trimmed, non-blank entries of the longest prefix of non-empty options |
| CreatePollForm.ScanAllEncodedFrom | src/lib/polls.ts:81-89 | the intended scan of the encoded form collects the kept options from any index to the end |
| CreatePollForm.SubmitRoundTripAllOptions | src/lib/polls.ts:81-89 | with the intended scan, every non-blank option shown reaches `createPoll`, trimmed and in order |
| CreatePollForm.AsWrittenStopsAtEmpty | src/lib/polls.ts:83 | as written, the scan of the encoded form stops at the first empty option |
| CreatePollForm.IntendedGoesPastEmpty | src/lib/polls.ts:83 | the intended scan collects the options on both sides of an empty option |
| CreatePollForm.KeptSplit | src/lib/polls.ts:84-87 | collecting a list is collecting its two halves, one after the other |
| CreatePollForm.KeptNonBlank | src/lib/polls.ts:85-86 | a list with a value that is not blank once trimmed collects at least one option |
| CreatePollForm.KeptAfterEmpty | src/lib/polls.ts:85-86 | a non-blank option after position `i` means something is collected from `i` on |
| CreatePollForm.EmptyOptionHidesLaterOptions | src/lib/polls.ts:83 | an empty option in the middle of the list hides every option after it from `createPoll`, while the intended scan collects strictly more |
| CreatePollForm.FilledOptionsRoundTrip | src/components/CreatePollForm.tsx:40-42 | with every option filled, `createPoll` collects each option trimmed, in order, and exactly the options when they are already trimmed |
| CreatePollForm.FilledFormScenario | src/components/CreatePollForm.test.tsx:42-58 | a filled form with a title and at least two options: a rejected poll insert answers "Failed to create poll", and accepted writes redirect to the new poll |
| CreatePollForm.TitleReadBack | src/lib/polls.ts:75 | the title field put before the options reads back as is |
| CreatePollForm.FormState.constructor | src/components/CreatePollForm.tsx:12-14 | the form starts with two empty options, not submitting, no error |
| CreatePollForm.FormState.AddOption | src/components/CreatePollForm.tsx:16-20 | appends one empty option below 10, otherwise no change; keeps 2 to 10 options |
| CreatePollForm.FormState.RemoveOption | src/components/CreatePollForm.tsx:22-26 | filters out the position above 2 options, otherwise no change; keeps 2 to 10 options |
| CreatePollForm.FormState.UpdateOption | src/components/CreatePollForm.tsx:28-32 | entry `i` becomes the value, and the length and every other entry are unchanged |
| CreatePollForm.FormState.HandleSubmit | src/components/CreatePollForm.tsx:34-50 | appends the options and calls `createPoll` once; a failure shows its message and re-enables the form; on success no error and the form stays disabled |
| PollVoting.Without | src/components/PollVoting.tsx:27 | the filter removes every occurrence of the id and keeps every other id with its multiplicity |
| PollVoting.WithoutAppended | src/components/PollVoting.tsx:25-29 | filtering out the id just appended gives back the selection before it |
| PollVoting.WithoutKeepsNoDup | src/components/PollVoting.tsx:27 | the filter never creates a duplicate |
| PollVoting.Toggle | src/components/PollVoting.tsx:25-29 | the clicked id is selected afterwards exactly when it was not before; other ids are unchanged; an unselected id is appended at the end |
| PollVoting.Select | src/components/PollVoting.tsx:22-34 | single-vote polls select exactly the clicked id; multi-vote polls toggle it |
| PollVoting.ToggleKeepsNoDup | src/components/PollVoting.tsx:25-29 | a toggle never creates a duplicate |
| PollVoting.ToggleTwiceSameIds | src/components/PollVoting.tsx:25-29 | clicking the same option twice gives back the same set of selected ids |
| PollVoting.ToggleTwiceRestores | src/components/PollVoting.tsx:25-29 | clicking the same option twice gives back the very same list exactly when the id was not selected or was the last selected |
| PollVoting.ClicksKeepNoDup | src/components/PollVoting.tsx:14-34 | any run of clicks keeps the selection free of duplicates, and single-vote polls keep at most one id |
| PollVoting.FirstFailure | src/components/PollVoting.tsx:47-49 | the position of the first rejected vote: every earlier vote is accepted |
| PollVoting.FirstFailureAt | src/components/PollVoting.tsx:47-57 | a rejected reply preceded only by accepted ones is the first failure |
| PollVoting.FirstFailureNone | src/components/PollVoting.tsx:47-51 | with every reply accepted, no vote fails |
| PollVoting.VotingState.constructor | src/components/PollVoting.tsx:14-17 | nothing selected, not voting, not voted, no error |
| PollVoting.VotingState.TotalShown | src/components/PollVoting.tsx:20 | the card's total is the sum of its options' counts |
| PollVoting.VotingState.HandleOptionSelect | src/components/PollVoting.tsx:22-34 | the new selection is `Select` of the old one, and the selection stays duplicate-free (single-vote: at most one id) |
| PollVoting.VotingState.HandleVote | src/components/PollVoting.tsx:36-58 | an empty selection shows "Please select at least one option" and sends nothing; otherwise the votes before the first failure are recorded in order; all accepted sets `hasVoted`; a failure shows its message, clears `isVoting` and leaves `hasVoted`; afterwards the button (off while voting or with nothing selected, PollVoting.tsx:133) stays off after an empty selection or a full success, and is on again after a failure |
| SimpleVotingForm.DisplayedVotes | src/components/SimpleVotingForm.tsx:65 | the chosen option shows one more vote; every other option its stored count |
| SimpleVotingForm.DisplayedTotal | src/components/SimpleVotingForm.tsx:92 | the shown total is the stored sum plus one |
| SimpleVotingForm.Shown | src/components/SimpleVotingForm.tsx:64-65 | each option with its displayed count, in the same order |
| SimpleVotingForm.DisplayedCountsAddUp | src/components/SimpleVotingForm.tsx:65 | with distinct ids, the displayed counts add up to the shown total exactly when the selection is one of the options, and to the stored total otherwise |
| SimpleVotingForm.OptimisticPercentage | src/components/SimpleVotingForm.tsx:66 | as written: 0 whenever the stored total is 0, otherwise the displayed count over the stored total plus one |
| SimpleVotingForm.CorrectedOptimisticPercentage | src/components/SimpleVotingForm.tsx:66 | the displayed count over the displayed total, which counts the new vote |
| SimpleVotingForm.PercentagesAgreeOnceVoted | src/components/SimpleVotingForm.tsx:66 | with a positive stored total the as-written and the intended percentages agree |
| SimpleVotingForm.FirstVoteShowsZeroPercent | src/components/SimpleVotingForm.tsx:66 | the first vote on a poll shows 1 vote at 0% as written, where the intended percentage is 100% |
| SimpleVotingForm.CorrectedSharesAddUp | src/components/SimpleVotingForm.tsx:65-66 | with distinct ids, no negative count and a chosen option, the intended percentages add up to 100 |
| SimpleVotingForm.ShownPercentages | src/components/SimpleVotingForm.tsx:65-66 | the share of each shown option over the displayed total is the intended percentage |
| SimpleVotingForm.VotingFormState.constructor | src/components/SimpleVotingForm.tsx:14-17 | nothing selected, not submitting, not voted, no error |
| SimpleVotingForm.VotingFormState.ChooseOption | src/components/SimpleVotingForm.tsx:130-133 | a radio replaces the selection with its option; while submitting the radios are disabled and nothing changes |
| SimpleVotingForm.VotingFormState.HandleSubmit | src/components/SimpleVotingForm.tsx:22-50 | no selection shows "Please select an option" and sends nothing; an accepted vote records one vote and sets `hasVoted`; a rejected one shows its message, clears `isSubmitting` and leaves `hasVoted`; afterwards the button (off while submitting or with nothing selected, SimpleVotingForm.tsx:148) is off exactly when nothing is selected or the vote was accepted |

## Left out

- Store calls (`supabase.from(...)`) are not code this model can see. Each write is a `WriteOutcome` parameter, and an accepted write is applied to the `Store` value. Read errors of the queries are not modelled, apart from `.single()`'s none-or-many error.
- The vote-count trigger lives in the database and is not shown (polls.ts:156). `voteOnPoll` only appends a vote record, and the counters the components show are the stored ones.
- Identifiers, creation times and share codes are generated by the store. Identifiers are serials handed out from `nextId`, and times are `nat` instants supplied by the caller. The share code is a parameter whose uniqueness is not modelled.
- `expiresAt` is kept as the raw string instead of `new Date(...).toISOString()`. Date parsing and formatting, and any expiry check, are not modelled.
- Polls.CreatePollOutcome: does not model the `RangeError` that `new Date(expiresAt).toISOString()` (polls.ts:105) throws for a non-empty value it cannot parse. The code then fails after validation and before any write; the model creates the poll with the raw value.
- The `console.error` logging on every error path (polls.ts:22, 44, 67, 117, 133, 152) is output only and is not modelled.
- The nested `poll_options (...)` selection (polls.ts:12-16) asks for no order. The model returns a poll's options in table order, which is its own choice.
- Percentages are exact reals. `toFixed(1)`, the CSS width strings and JavaScript number precision are not modelled.
- The `redirect` after creation, `window.location.reload` after voting, and the mock-poll branch with its timer in `SimpleVotingForm` are navigation and test scaffolding. They are not modelled. Success is the `Redirected` result or the `hasVoted` flag.
- The browser's `required` attribute on the title and the first two options is not modelled. The model accepts any form, as the server action does.
- The nested select lists only `id`, `text` and `votes` of each option. The model returns whole option rows.
- Polls created at the same instant may come back in any order from the store. `SortNewestFirst` fixes one such order, and its contract states only the newest-first order and the permutation.
- Concurrent voters and concurrent submissions are not modelled; each handler runs to completion on its own.
- Next.js's rewriting of error messages thrown by server actions is not modelled: a thrown `Error` reaches the component with its own message.
- CreatePollForm.FormState.UpdateOption: requires an index inside the list. The component only calls it from a rendered option. In JavaScript an index at or past the end would lengthen the array (with holes before it), and a negative index would set a property and leave the list unchanged; the model captures neither.
- CreatePollForm.FormState.HandleSubmit: shows the message of the `Error` that `createPoll` throws. The `catch`'s fallback text "Failed to create poll" is not modelled, because `createPoll` throws only `Error` objects and the fallback is never reached.
- PollVoting.ToggleTwiceRestores: clicking twice restores the exact list only when the id was absent or last. Otherwise only the set of ids is restored (`ToggleTwiceSameIds`), because the id moves to the end.
- SimpleVotingForm.VotingFormState.HandleSubmit: the selection is an `Option` of an option id. An empty-string id, which the radios never produce, is not distinguished from "nothing selected".

## Findings

| source | as written | input that shows it | evidently intended | confidence | as-written member | corrected member |
|---|---|---|---|---|---|---|
| src/lib/polls.ts:83 | the loop stops at the first `option-i` that is the empty string, so every option after an option left empty is silently dropped | options `A`, `B`, ``, `D` (the third field left empty, the fourth filled): the poll gets `A` and `B` only | skip blank options and go on to the end of the list, as the whitespace-only check inside the loop already does | not executed | CreatePollForm.EmptyOptionHidesLaterOptions | CreatePollForm.SubmitRoundTripAllOptions |
| src/components/SimpleVotingForm.tsx:66 | the optimistic percentage is guarded by the stored total, so when the stored total is 0 the just-voted option shows 1 vote at 0% | a poll with no votes yet, one option voted for: 1 vote, 0%, total 1 | divide by the displayed total `totalVotes + 1`, which is never 0 after a vote, giving 100% | not executed | SimpleVotingForm.FirstVoteShowsZeroPercent | SimpleVotingForm.CorrectedSharesAddUp |

`Polls.CreatePoll` and `SimpleVotingForm.OptimisticPercentage` keep the code
as written, so that the model of each handler does what the handler does. The corrected scan is `Polls.ScanAllOptions`. The corrected
percentage is `SimpleVotingForm.CorrectedOptimisticPercentage`; its shares
add up to 100 (`CorrectedSharesAddUp`).
