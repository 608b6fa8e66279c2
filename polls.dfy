/**
 * The server actions of the poll service: creating a poll from a submitted
 * form, listing and looking up polls, and casting a vote.
 *
 * The hosted store is a value, `Store`, holding the three tables and the
 * next identifier the store will hand out. Whether a write succeeds is not
 * decided here: each write takes a `WriteOutcome` the store answers with.
 */
module Polls {
  import opened Wrappers
  import opened Text
  import opened Forms
  import opened Database

  // ---------------------------------------------------------------------
  // The store
  // ---------------------------------------------------------------------

  datatype Store = Store(
    polls: seq<Poll>,
    poll_options: seq<PollOption>,
    votes: seq<Vote>,
    nextId: Id)

  /** Rows get identifiers in insertion order and every identifier handed
      out is below `nextId`, so no two rows of a table share one. */
  ghost predicate Valid(store: Store) {
    && PollIdsIncreasing(store.polls)
    && (forall k :: 0 <= k < |store.polls| ==> store.polls[k].id < store.nextId)
    && OptionIdsIncreasing(store.poll_options)
    && (forall k :: 0 <= k < |store.poll_options| ==> store.poll_options[k].id < store.nextId)
    && (forall i, j :: 0 <= i < j < |store.votes| ==> store.votes[i].id < store.votes[j].id)
    && (forall k :: 0 <= k < |store.votes| ==> store.votes[k].id < store.nextId)
  }

  ghost predicate PollIdsIncreasing(polls: seq<Poll>) {
    forall i, j :: 0 <= i < j < |polls| ==> polls[i].id < polls[j].id
  }

  ghost predicate OptionIdsIncreasing(options: seq<PollOption>) {
    forall i, j :: 0 <= i < j < |options| ==> options[i].id < options[j].id
  }

  /** What a thrown value looks like to a `catch` block. */
  datatype Thrown = ErrorObject(message: string) | NonErrorValue

  /** The store's answer to one write. */
  datatype WriteOutcome = Accepted | Rejected(thrown: Thrown)

  /** `err instanceof Error ? err.message : fallback`. */
  function ErrorMessage(thrown: Thrown, fallback: string): (message: string)
    ensures thrown.ErrorObject? ==> message == thrown.message
    ensures thrown.NonErrorValue? ==> message == fallback
  {
    match thrown
    case ErrorObject(m) => m
    case NonErrorValue => fallback
  }

  // ---------------------------------------------------------------------
  // Collecting the options of a submitted form
  // ---------------------------------------------------------------------

  /** What one scanned value contributes: its trim, unless that is empty. */
  function KeepOption(value: string): seq<string> {
    if Trim(value) != "" then [Trim(value)] else []
  }

  /** The trimmed, non-blank values among `values`, in order. */
  function Kept(values: seq<string>): (r: seq<string>)
    ensures |r| <= |values|
  {
    if values == [] then [] else KeepOption(values[0]) + Kept(values[1..])
  }

  /** Every kept value is non-blank and has no white space at its ends. */
  lemma {:induction false} KeptAreTrimmed(values: seq<string>)
    ensures forall x :: x in Kept(values) ==> x != "" && Trimmed(x)
  {
    if values != [] {
      KeptAreTrimmed(values[1..]);
      TrimSpec(values[0]);
      assert forall x :: x in KeepOption(values[0]) ==> x == Trim(values[0]);
    }
  }

  /** Keeping distributes over concatenation: the kept options of a form keep
      the form's order. */
  lemma {:induction false} KeptAppend(a: seq<string>, b: seq<string>)
    ensures Kept(a + b) == Kept(a) + Kept(b)
  {
    if a == [] {
      assert a + b == b;
    } else {
      assert (a + b)[1..] == a[1..] + b;
      KeptAppend(a[1..], b);
    }
  }

  /** Values that are already trimmed and non-blank are all kept as they are. */
  lemma {:induction false} KeptOfTrimmed(values: seq<string>)
    requires forall k :: 0 <= k < |values| ==> values[k] != "" && Trimmed(values[k])
    ensures Kept(values) == values
  {
    if values != [] {
      TrimOfTrimmed(values[0]);
      KeptOfTrimmed(values[1..]);
    }
  }

  /** The loop of `createPoll` from `option-index` on: while `option-i` is
      truthy, keep its trim if non-blank and go on with `i + 1`. */
  function ScanFrom(formData: FormData, index: nat): seq<string>
    decreases OptionBound(formData) - index
  {
    var value := Get(formData, OptionField(index));
    if Truthy(value) then
      GetBelowBound(formData, index);
      KeepOption(value.value) + ScanFrom(formData, index + 1)
    else
      []
  }

  /** The options `createPoll` collects from a form. */
  function ScanOptions(formData: FormData): seq<string> {
    ScanFrom(formData, 0)
  }

  /** The value of a field, or `""` when it is missing. */
  function FieldValue(formData: FormData, name: FieldName): string {
    match Get(formData, name)
    case Some(v) => v
    case None => ""
  }

  /** The first index at or after `index` whose `option-i` is missing or
      empty: the scan stops there. */
  function StopFrom(formData: FormData, index: nat): (stop: nat)
    decreases OptionBound(formData) - index
    ensures index <= stop
    ensures !Truthy(Get(formData, OptionField(stop)))
    ensures forall j :: index <= j < stop ==> Truthy(Get(formData, OptionField(j)))
  {
    if Truthy(Get(formData, OptionField(index))) then
      GetBelowBound(formData, index);
      StopFrom(formData, index + 1)
    else
      index
  }

  /** The values of `option-from` up to (not including) `option-stop`. */
  function OptionValues(formData: FormData, from: nat, stop: nat): (vs: seq<string>)
    decreases stop - from
    ensures |vs| == if from <= stop then stop - from else 0
    ensures forall k :: 0 <= k < |vs| ==> vs[k] == FieldValue(formData, OptionField(from + k))
  {
    if from >= stop then []
    else [FieldValue(formData, OptionField(from))] + OptionValues(formData, from + 1, stop)
  }

  /** The scan reads `option-0`, `option-1`, ... in order, stops at the first
      index whose value is missing or empty, and yields the trimmed non-blank
      values before it: later entries never matter. */
  lemma {:induction false} ScanIsKeptPrefix(formData: FormData, index: nat)
    ensures ScanFrom(formData, index) == Kept(OptionValues(formData, index, StopFrom(formData, index)))
    decreases OptionBound(formData) - index
  {
    var stop := StopFrom(formData, index);
    if Truthy(Get(formData, OptionField(index))) {
      GetBelowBound(formData, index);
      ScanIsKeptPrefix(formData, index + 1);
      var vs := OptionValues(formData, index, stop);
      assert vs[1..] == OptionValues(formData, index + 1, stop);
    }
  }

  /** One turn of the collection loop: keeping the trim of a truthy
      `option-index` (when non-blank) and scanning on from `index + 1`
      collects what scanning from `index` collects. */
  lemma ScanStep(formData: FormData, index: nat, options: seq<string>)
    requires Truthy(Get(formData, OptionField(index)))
    ensures var trimmed := Trim(Get(formData, OptionField(index)).value);
            (if trimmed != "" then options + [trimmed] else options) + ScanFrom(formData, index + 1)
            == options + ScanFrom(formData, index)
  {
    ScanUnfolds(formData, index);
    KeepThenRest(options, Get(formData, OptionField(index)).value, ScanFrom(formData, index + 1));
  }

  lemma ScanUnfolds(formData: FormData, index: nat)
    requires Truthy(Get(formData, OptionField(index)))
    ensures ScanFrom(formData, index) == KeepOption(Get(formData, OptionField(index)).value) + ScanFrom(formData, index + 1)
  {
    GetBelowBound(formData, index);
  }

  lemma KeepThenRest(options: seq<string>, option: string, rest: seq<string>)
    ensures (if Trim(option) != "" then options + [Trim(option)] else options) + rest
            == options + (KeepOption(option) + rest)
  {
    if Trim(option) != "" {
      assert options + [Trim(option)] + rest == options + ([Trim(option)] + rest);
    } else {
      assert [] + rest == rest;
    }
  }

  /** The collection loop of `createPoll`. */
  method CollectOptions(formData: FormData) returns (options: seq<string>)
    ensures options == ScanOptions(formData)
  {
    options := [];
    var optionIndex := 0;
    assert options + ScanFrom(formData, 0) == ScanOptions(formData);
    while Truthy(Get(formData, OptionField(optionIndex)))
      invariant options + ScanFrom(formData, optionIndex) == ScanOptions(formData)
      decreases OptionBound(formData) - optionIndex
    {
      GetBelowBound(formData, optionIndex);
      ScanStep(formData, optionIndex, options);
      var option := Get(formData, OptionField(optionIndex)).value;
      var trimmed := Trim(option);
      if trimmed != "" {
        options := options + [trimmed];
      }
      optionIndex := optionIndex + 1;
    }
    assert ScanFrom(formData, optionIndex) == [];
    assert options + [] == options;
  }

  /** The scan `createPoll` evidently intends: go on while `option-i` is
      present at all, skipping blank values, so that an option left empty
      in the middle of the list does not hide the ones after it. */
  function ScanPresentFrom(formData: FormData, index: nat): seq<string>
    decreases OptionBound(formData) - index
  {
    var value := Get(formData, OptionField(index));
    if value.Some? then
      GetBelowBound(formData, index);
      KeepOption(value.value) + ScanPresentFrom(formData, index + 1)
    else
      []
  }

  function ScanAllOptions(formData: FormData): seq<string> {
    ScanPresentFrom(formData, 0)
  }

  // ---------------------------------------------------------------------
  // Validation and the rows createPoll writes
  // ---------------------------------------------------------------------

  const TitleRequired := "Poll title is required"
  const TooFewOptions := "At least 2 options are required"
  const PollInsertFailed := "Failed to create poll"
  const OptionsInsertFailed := "Failed to create poll options"

  /** A title field that is missing or only white space. */
  predicate TitleMissing(title: Option<string>) {
    title.None? || Trim(title.value) == ""
  }

  /** The checks of `createPoll`, title first. */
  function ValidationError(title: Option<string>, options: seq<string>): (r: Option<string>)
    ensures r == Some(TitleRequired) <==> TitleMissing(title)
    ensures r == Some(TooFewOptions) <==> !TitleMissing(title) && |options| < 2
    ensures r == None <==> !TitleMissing(title) && |options| >= 2
  {
    if TitleMissing(title) then Some(TitleRequired)
    else if |options| < 2 then Some(TooFewOptions)
    else None
  }

  /** The poll fields `createPoll` sends; the store fills in the others. */
  datatype PollDraft = PollDraft(
    title: string,
    description: Option<string>,
    allow_multiple_votes: bool,
    expires_at: Option<string>,
    is_active: bool,
    user_id: Option<Id>)

  /** One option row as `createPoll` sends it. */
  datatype OptionDraft = OptionDraft(poll_id: Id, text: string, votes: int)

  /** `pollData`: the title trimmed, a non-blank description trimmed and a
      blank or missing one null, an expiry only when one was given, active
      and anonymous. */
  function BuildPollDraft(
    title: string, description: Option<string>, allowMultipleVotes: bool, expiresAt: Option<string>)
    : (d: PollDraft)
    ensures d.title == Trim(title)
    ensures d.description.Some? <==> description.Some? && !Blank(description.value)
    ensures d.description.Some? ==>
              d.description.value == Trim(description.value) && d.description.value != ""
    ensures d.allow_multiple_votes == allowMultipleVotes
    ensures d.expires_at.None? <==> !Truthy(expiresAt)
    ensures d.is_active && d.user_id.None?
  {
    assert description.Some? ==> (Trim(description.value) == "" <==> Blank(description.value)) by {
      if description.Some? {
        TrimSpec(description.value);
      }
    }
    PollDraft(
      title := Trim(title),
      description := if description.Some? && Trim(description.value) != "" then Some(Trim(description.value)) else None,
      allow_multiple_votes := allowMultipleVotes,
      expires_at := if Truthy(expiresAt) then expiresAt else None,
      is_active := true,
      user_id := None)
  }

  /** `options.map(...)`: one row per collected option, in order, for the new
      poll, with no votes. */
  function BuildOptionRows(pollId: Id, options: seq<string>): (rows: seq<OptionDraft>)
    ensures |rows| == |options|
    ensures forall k :: 0 <= k < |rows| ==> rows[k] == OptionDraft(pollId, options[k], 0)
  {
    if options == [] then [] else [OptionDraft(pollId, options[0], 0)] + BuildOptionRows(pollId, options[1..])
  }

  /** The poll row the store keeps for a draft. */
  function StoredPoll(draft: PollDraft, id: Id, now: Timestamp, shareCode: string): Poll {
    Poll(id, draft.title, draft.description, now, now, draft.user_id, draft.is_active,
         draft.allow_multiple_votes, draft.expires_at, shareCode)
  }

  /** The option rows the store keeps for drafts, numbered from `firstId`. */
  function StoredOptions(rows: seq<OptionDraft>, firstId: Id, now: Timestamp): (stored: seq<PollOption>)
    ensures |stored| == |rows|
    ensures forall k :: 0 <= k < |rows| ==>
              stored[k] == PollOption(firstId + k, rows[k].poll_id, rows[k].text, rows[k].votes, now)
  {
    if rows == [] then []
    else
      [PollOption(firstId, rows[0].poll_id, rows[0].text, rows[0].votes, now)]
      + StoredOptions(rows[1..], firstId + 1, now)
  }

  /** The store accepting a poll insert. */
  function InsertPoll(store: Store, draft: PollDraft, now: Timestamp, shareCode: string): (r: Store)
    ensures Valid(store) ==> Valid(r)
  {
    store.(polls := store.polls + [StoredPoll(draft, store.nextId, now, shareCode)],
           nextId := store.nextId + 1)
  }

  /** The store accepting an insert of option rows. */
  function InsertOptions(store: Store, rows: seq<OptionDraft>, now: Timestamp): (r: Store)
    ensures Valid(store) ==> Valid(r)
  {
    store.(poll_options := store.poll_options + StoredOptions(rows, store.nextId, now),
           nextId := store.nextId + |rows|)
  }

  // ---------------------------------------------------------------------
  // createPoll
  // ---------------------------------------------------------------------

  /** `createPoll` returns by redirecting to the new poll or throws. */
  datatype CreateResult = Redirected(pollId: Id) | Failed(message: string)

  datatype CreateOutcome = CreateOutcome(result: CreateResult, store: Store)

  /** The draft `createPoll` builds from a form whose title is present. */
  function DraftOf(formData: FormData): PollDraft
    requires Get(formData, Title).Some?
  {
    BuildPollDraft(Get(formData, Title).value, Get(formData, Description),
                   Get(formData, AllowMultipleVotes) == Some("on"), Get(formData, ExpiresAt))
  }

  /** What `createPoll` does to the store and what it answers. Validation
      comes before any write; a failed poll insert writes nothing; a failed
      option insert leaves the poll row in place. */
  function CreatePollOutcome(
    formData: FormData, store: Store, now: Timestamp, shareCode: string,
    pollWrite: WriteOutcome, optionsWrite: WriteOutcome)
    : (out: CreateOutcome)
    ensures TitleMissing(Get(formData, Title)) ==> out == CreateOutcome(Failed(TitleRequired), store)
    ensures !TitleMissing(Get(formData, Title)) && |ScanOptions(formData)| < 2 ==>
              out == CreateOutcome(Failed(TooFewOptions), store)
    ensures pollWrite.Rejected? && out.result.Failed? ==> out.store == store
    ensures out.result.Redirected? ==>
              pollWrite.Accepted? && optionsWrite.Accepted? && |ScanOptions(formData)| >= 2
    ensures out.store.votes == store.votes
    ensures Valid(store) ==> Valid(out.store)
  {
    var options := ScanOptions(formData);
    match ValidationError(Get(formData, Title), options)
    case Some(message) => CreateOutcome(Failed(message), store)
    case None =>
      if pollWrite.Rejected? then CreateOutcome(Failed(PollInsertFailed), store)
      else
        var withPoll := InsertPoll(store, DraftOf(formData), now, shareCode);
        if optionsWrite.Rejected? then CreateOutcome(Failed(OptionsInsertFailed), withPoll)
        else
          CreateOutcome(Redirected(store.nextId),
                        InsertOptions(withPoll, BuildOptionRows(store.nextId, options), now))
  }

  /** A valid form whose poll insert fails answers "Failed to create poll"
      and attempts no option insert. */
  lemma PollInsertFailureWritesNothing(
    formData: FormData, store: Store, now: Timestamp, shareCode: string,
    thrown: Thrown, optionsWrite: WriteOutcome)
    requires !TitleMissing(Get(formData, Title)) && |ScanOptions(formData)| >= 2
    ensures CreatePollOutcome(formData, store, now, shareCode, Rejected(thrown), optionsWrite)
            == CreateOutcome(Failed(PollInsertFailed), store)
  {
  }

  /** A valid form whose option insert fails answers "Failed to create poll
      options"; the poll row stays, without options. */
  lemma OptionsInsertFailureKeepsPoll(
    formData: FormData, store: Store, now: Timestamp, shareCode: string, thrown: Thrown)
    requires !TitleMissing(Get(formData, Title)) && |ScanOptions(formData)| >= 2
    ensures var out := CreatePollOutcome(formData, store, now, shareCode, Accepted, Rejected(thrown));
            && out.result == Failed(OptionsInsertFailed)
            && out.store.polls == store.polls + [StoredPoll(DraftOf(formData), store.nextId, now, shareCode)]
            && out.store.poll_options == store.poll_options
  {
  }

  /** A successful creation adds one active, anonymous poll whose fields come
      from the form: the title trimmed, the description trimmed or null when
      blank, multiple votes exactly when the checkbox sent "on", no expiry
      when none was given. */
  lemma CreatedPollRecord(formData: FormData, store: Store, now: Timestamp, shareCode: string)
    requires !TitleMissing(Get(formData, Title)) && |ScanOptions(formData)| >= 2
    ensures var out := CreatePollOutcome(formData, store, now, shareCode, Accepted, Accepted);
            && out.result == Redirected(store.nextId)
            && |out.store.polls| == |store.polls| + 1
            && out.store.polls[..|store.polls|] == store.polls
            && NewPollFromForm(out.store.polls[|store.polls|], formData, store.nextId, now, shareCode)
  {
    var draft := DraftOf(formData);
    var poll := StoredPoll(draft, store.nextId, now, shareCode);
    var out := CreatePollOutcome(formData, store, now, shareCode, Accepted, Accepted);
    assert out.store.polls == store.polls + [poll];
  }

  /** The fields of a poll row created from `formData`. */
  ghost predicate NewPollFromForm(poll: Poll, formData: FormData, id: Id, now: Timestamp, shareCode: string) {
    var description := Get(formData, Description);
    var expiresAt := Get(formData, ExpiresAt);
    && poll.id == id && poll.share_code == shareCode
    && poll.created_at == now && poll.updated_at == now
    && Get(formData, Title).Some? && poll.title == Trim(Get(formData, Title).value) && poll.title != ""
    && (poll.allow_multiple_votes <==> Get(formData, AllowMultipleVotes) == Some("on"))
    && poll.description ==
         (if description.Some? && Trim(description.value) != "" then Some(Trim(description.value)) else None)
    && (poll.description.None? <==> description.None? || Blank(description.value))
    && poll.expires_at == (if Truthy(expiresAt) then expiresAt else None)
    && poll.is_active && poll.user_id.None?
  }

  /** `after` is `before` followed by one row per option, in order, each
      with the poll's id, the option's text and no votes. */
  ghost predicate AppendsOptionRows(
    before: seq<PollOption>, after: seq<PollOption>, pollId: Id, options: seq<string>)
  {
    && |after| == |before| + |options|
    && after[..|before|] == before
    && forall k :: 0 <= k < |options| ==>
         after[|before| + k].poll_id == pollId && after[|before| + k].text == options[k]
         && after[|before| + k].votes == 0
  }

  /** A successful creation adds exactly one option row per collected option,
      in order, belonging to the new poll and holding no votes. */
  lemma CreatedOptionRows(formData: FormData, store: Store, now: Timestamp, shareCode: string)
    requires !TitleMissing(Get(formData, Title)) && |ScanOptions(formData)| >= 2
    ensures AppendsOptionRows(
              store.poll_options,
              CreatePollOutcome(formData, store, now, shareCode, Accepted, Accepted).store.poll_options,
              store.nextId, ScanOptions(formData))
  {
    var options := ScanOptions(formData);
    var withPoll := InsertPoll(store, DraftOf(formData), now, shareCode);
    var rows := BuildOptionRows(store.nextId, options);
    assert CreatePollOutcome(formData, store, now, shareCode, Accepted, Accepted).store
           == InsertOptions(withPoll, rows, now);
    InsertedOptionRows(withPoll, store.nextId, options, now);
  }

  /** Inserting the rows built for `options` appends them after the rows
      already stored. */
  lemma InsertedOptionRows(store: Store, pollId: Id, options: seq<string>, now: Timestamp)
    ensures AppendsOptionRows(
              store.poll_options,
              InsertOptions(store, BuildOptionRows(pollId, options), now).poll_options,
              pollId, options)
  {
    var stored := StoredOptions(BuildOptionRows(pollId, options), store.nextId, now);
    var after := store.poll_options + stored;
    assert after[..|store.poll_options|] == store.poll_options;
    forall k | 0 <= k < |options|
      ensures after[|store.poll_options| + k] == stored[k]
    {
    }
  }

  /** The server action: collect the options with the loop, validate, then
      write the poll and its options. */
  method CreatePoll(
    formData: FormData, store: Store, now: Timestamp, shareCode: string,
    pollWrite: WriteOutcome, optionsWrite: WriteOutcome)
    returns (result: CreateResult, store': Store)
    ensures CreateOutcome(result, store') ==
            CreatePollOutcome(formData, store, now, shareCode, pollWrite, optionsWrite)
  {
    var title := Get(formData, Title);
    var description := Get(formData, Description);
    var allowMultipleVotes := Get(formData, AllowMultipleVotes) == Some("on");
    var expiresAt := Get(formData, ExpiresAt);
    var options := CollectOptions(formData);
    var invalid := ValidationError(title, options);
    if invalid.Some? {
      return Failed(invalid.value), store;
    }
    var pollData := BuildPollDraft(title.value, description, allowMultipleVotes, expiresAt);
    if pollWrite.Rejected? {
      return Failed(PollInsertFailed), store;
    }
    var newPollId := store.nextId;
    store' := InsertPoll(store, pollData, now, shareCode);
    var pollOptions := BuildOptionRows(newPollId, options);
    if optionsWrite.Rejected? {
      return Failed(OptionsInsertFailed), store';
    }
    store' := InsertOptions(store', pollOptions, now);
    result := Redirected(newPollId);
  }

  // ---------------------------------------------------------------------
  // Queries
  // ---------------------------------------------------------------------

  /** The rows `.single()` refuses: none, or more than one. */
  datatype QueryError = NoRows | MultipleRows

  /** `.eq(...)` filters on the polls table: the rows that pass, in table
      order. */
  function PollsWhere(polls: seq<Poll>, keep: Poll -> bool): (r: seq<Poll>)
    ensures |r| <= |polls|
    ensures forall p :: p in r <==> p in polls && keep(p)
  {
    if polls == [] then []
    else
      var rest := PollsWhere(polls[1..], keep);
      assert polls == [polls[0]] + polls[1..];
      if keep(polls[0]) then [polls[0]] + rest else rest
  }

  /** Filtering keeps the table order of identifiers. */
  lemma {:induction false} PollsWhereKeepsOrder(polls: seq<Poll>, keep: Poll -> bool)
    requires PollIdsIncreasing(polls)
    ensures PollIdsIncreasing(PollsWhere(polls, keep))
  {
    if polls != [] {
      var tail := polls[1..];
      assert PollIdsIncreasing(tail) by {
        forall i, j | 0 <= i < j < |tail| ensures tail[i].id < tail[j].id {
          assert tail[i] == polls[i + 1] && tail[j] == polls[j + 1];
        }
      }
      PollsWhereKeepsOrder(tail, keep);
      var rest := PollsWhere(tail, keep);
      forall q | q in rest ensures polls[0].id < q.id {
        var k :| 0 <= k < |tail| && tail[k] == q;
        assert polls[k + 1] == q;
      }
    }
  }

  /** The nested `poll_options(...)` selection: the options of one poll, in
      table order. */
  function OptionsOf(options: seq<PollOption>, pollId: Id): (r: seq<PollOption>)
    ensures |r| <= |options|
    ensures forall o :: o in r <==> o in options && o.poll_id == pollId
  {
    if options == [] then []
    else
      var rest := OptionsOf(options[1..], pollId);
      assert options == [options[0]] + options[1..];
      if options[0].poll_id == pollId then [options[0]] + rest else rest
  }

  predicate IsActive(p: Poll) {
    p.is_active
  }

  /** `.eq('is_active', true)`. */
  function ActivePolls(polls: seq<Poll>): seq<Poll> {
    PollsWhere(polls, IsActive)
  }

  /** Newer polls come first. */
  ghost predicate NewestFirst(polls: seq<Poll>) {
    forall i, j :: 0 <= i < j < |polls| ==> polls[i].created_at >= polls[j].created_at
  }

  /** Put one poll in front of the first poll that is not newer. */
  function InsertNewest(p: Poll, sorted: seq<Poll>): (r: seq<Poll>)
    ensures multiset(r) == multiset(sorted) + multiset{p}
    ensures |r| == |sorted| + 1
    ensures r[0] == p || (sorted != [] && r[0] == sorted[0])
  {
    if sorted == [] || p.created_at >= sorted[0].created_at then [p] + sorted
    else
      assert sorted == [sorted[0]] + sorted[1..];
      [sorted[0]] + InsertNewest(p, sorted[1..])
  }

  /** Inserting into a newest-first list keeps it newest first. */
  lemma {:induction false} InsertNewestKeepsOrder(p: Poll, sorted: seq<Poll>)
    requires NewestFirst(sorted)
    ensures NewestFirst(InsertNewest(p, sorted))
  {
    if sorted != [] && p.created_at < sorted[0].created_at {
      var rest := InsertNewest(p, sorted[1..]);
      InsertNewestKeepsOrder(p, sorted[1..]);
      var r := [sorted[0]] + rest;
      forall i, j | 0 <= i < j < |r| ensures r[i].created_at >= r[j].created_at {
        if i == 0 {
          assert r[j] == rest[j - 1];
          assert rest[0].created_at >= rest[j - 1].created_at;
        } else {
          assert r[i] == rest[i - 1] && r[j] == rest[j - 1];
        }
      }
    }
  }

  /** `.order('created_at', { ascending: false })`: the same polls, newest
      first. Polls created at the same instant may come in either order in
      the store; this model puts them in one of those orders. */
  function SortNewestFirst(polls: seq<Poll>): (r: seq<Poll>)
    ensures NewestFirst(r)
    ensures multiset(r) == multiset(polls) && |r| == |polls|
  {
    if polls == [] then []
    else
      assert polls == [polls[0]] + polls[1..];
      var rest := SortNewestFirst(polls[1..]);
      InsertNewestKeepsOrder(polls[0], rest);
      InsertNewest(polls[0], rest)
  }

  /** Each poll joined with its options. */
  function WithOptions(store: Store, polls: seq<Poll>): (r: seq<PollWithOptions>)
    ensures |r| == |polls|
    ensures forall k :: 0 <= k < |r| ==>
              r[k] == PollWithOptions(polls[k], OptionsOf(store.poll_options, polls[k].id))
  {
    if polls == [] then []
    else [PollWithOptions(polls[0], OptionsOf(store.poll_options, polls[0].id))]
         + WithOptions(store, polls[1..])
  }

  /** `getPolls`: only active polls, newest first, each with its own
      options. */
  function GetPolls(store: Store): (r: seq<PollWithOptions>)
    ensures |r| == |ActivePolls(store.polls)|
    ensures forall k :: 0 <= k < |r| ==> r[k].poll in store.polls && r[k].poll.is_active
    ensures forall i, j :: 0 <= i < j < |r| ==> r[i].poll.created_at >= r[j].poll.created_at
    ensures forall k :: 0 <= k < |r| ==> r[k].poll_options == OptionsOf(store.poll_options, r[k].poll.id)
  {
    var sorted := SortNewestFirst(ActivePolls(store.polls));
    SortedMembers(ActivePolls(store.polls));
    WithOptions(store, sorted)
  }

  /** Sorting keeps exactly the same members. */
  lemma SortedMembers(polls: seq<Poll>)
    ensures forall p :: p in SortNewestFirst(polls) <==> p in polls
  {
    var sorted := SortNewestFirst(polls);
    forall p ensures p in sorted <==> p in polls {
      assert p in sorted <==> p in multiset(sorted);
      assert p in polls <==> p in multiset(polls);
    }
  }

  /** Every active poll is listed. */
  lemma GetPollsListsEveryActivePoll(store: Store, p: Poll)
    requires p in store.polls && p.is_active
    ensures exists k :: 0 <= k < |GetPolls(store)| && GetPolls(store)[k].poll == p
  {
    var sorted := SortNewestFirst(ActivePolls(store.polls));
    SortedMembers(ActivePolls(store.polls));
    var k :| 0 <= k < |sorted| && sorted[k] == p;
    assert GetPolls(store)[k].poll == p;
  }

  /** `.single()`: the one matching row with its options, or an error. */
  function Single(store: Store, matches: seq<Poll>): (r: Result<PollWithOptions, QueryError>)
    ensures r.Ok? <==> |matches| == 1
    ensures r == Err(NoRows) <==> matches == []
    ensures r.Ok? ==> r.value == PollWithOptions(matches[0], OptionsOf(store.poll_options, matches[0].id))
  {
    if |matches| == 1 then Ok(PollWithOptions(matches[0], OptionsOf(store.poll_options, matches[0].id)))
    else if matches == [] then Err(NoRows)
    else Err(MultipleRows)
  }

  /** `getPoll`: the poll with that identifier, active or not. In a valid
      store it is found exactly when it exists. */
  function GetPoll(store: Store, id: Id): (r: Result<PollWithOptions, QueryError>)
    ensures r.Ok? ==> r.value.poll in store.polls && r.value.poll.id == id
                      && r.value.poll_options == OptionsOf(store.poll_options, id)
    ensures r == Err(NoRows) <==> forall p :: p in store.polls ==> p.id != id
    ensures Valid(store) && r.Err? ==> r.error == NoRows
  {
    var matches := PollsWhere(store.polls, (p: Poll) => p.id == id);
    assert Valid(store) ==> PollIdsIncreasing(matches) by {
      if Valid(store) {
        PollsWhereKeepsOrder(store.polls, (p: Poll) => p.id == id);
      }
    }
    assert matches != [] ==> matches[0] in matches && matches[0].id == id;
    assert |matches| > 1 ==> matches[1] in matches && matches[1].id == id;
    Single(store, matches)
  }

  /** `getPollByShareCode`: the one ACTIVE poll with exactly that share code;
      an inactive poll's code finds nothing. */
  function GetPollByShareCode(store: Store, shareCode: string): (r: Result<PollWithOptions, QueryError>)
    ensures r.Ok? ==> r.value.poll in store.polls && r.value.poll.is_active
                      && r.value.poll.share_code == shareCode
                      && r.value.poll_options == OptionsOf(store.poll_options, r.value.poll.id)
    ensures r.Ok? ==> forall p :: p in store.polls && p.is_active && p.share_code == shareCode ==>
                                    p == r.value.poll
    ensures r == Err(NoRows) <==>
              forall p :: p in store.polls && p.share_code == shareCode ==> !p.is_active
  {
    var matches := PollsWhere(store.polls, ActiveWithCode(shareCode));
    assert matches != [] ==> matches[0] in matches;
    Single(store, matches)
  }

  /** `.eq('share_code', shareCode).eq('is_active', true)`. */
  function ActiveWithCode(shareCode: string): Poll -> bool {
    (p: Poll) => p.share_code == shareCode && p.is_active
  }

  /** In a valid store, the one active poll with a share code is found, with
      its options. */
  lemma GetPollByShareCodeFinds(store: Store, shareCode: string, p: Poll)
    requires Valid(store)
    requires p in store.polls && p.is_active && p.share_code == shareCode
    requires forall q :: q in store.polls && q.is_active && q.share_code == shareCode ==> q == p
    ensures GetPollByShareCode(store, shareCode) == Ok(PollWithOptions(p, OptionsOf(store.poll_options, p.id)))
  {
    var matches := PollsWhere(store.polls, ActiveWithCode(shareCode));
    PollsWhereKeepsOrder(store.polls, ActiveWithCode(shareCode));
    assert p in matches;
    assert matches[0] in matches;
    FirstTwoDiffer(matches);
  }

  lemma FirstTwoDiffer(polls: seq<Poll>)
    requires PollIdsIncreasing(polls)
    ensures |polls| > 1 ==> polls[0] != polls[1] && polls[1] in polls
  {
  }

  // ---------------------------------------------------------------------
  // voteOnPoll
  // ---------------------------------------------------------------------

  datatype VoteResult = VoteRecorded(store: Store) | VoteFailed(thrown: Thrown)

  /** The store accepting one vote record. */
  function AcceptVote(
    store: Store, pollId: Id, optionId: Id, userId: Option<Id>, voterIp: Option<string>, now: Timestamp)
    : (r: Store)
    ensures Valid(store) ==> Valid(r)
  {
    store.(votes := store.votes + [Vote(store.nextId, pollId, optionId, userId, voterIp, now)],
           nextId := store.nextId + 1)
  }

  /** `voteOnPoll`: insert one vote record, or rethrow the store's error. The
      counter update done by the store itself is not part of this model. */
  function VoteOnPoll(
    store: Store, pollId: Id, optionId: Id, userId: Option<Id>, voterIp: Option<string>,
    now: Timestamp, reply: WriteOutcome)
    : (r: VoteResult)
    ensures r.VoteRecorded? <==> reply.Accepted?
    ensures r.VoteFailed? ==> r.thrown == reply.thrown
    ensures r.VoteRecorded? ==>
              && r.store.votes == store.votes + [Vote(store.nextId, pollId, optionId, userId, voterIp, now)]
              && r.store.polls == store.polls && r.store.poll_options == store.poll_options
              && (Valid(store) ==> Valid(r.store))
  {
    match reply
    case Accepted => VoteRecorded(AcceptVote(store, pollId, optionId, userId, voterIp, now))
    case Rejected(thrown) => VoteFailed(thrown)
  }

  /** The store after accepting anonymous votes for `optionIds`, one after
      the other. */
  function RecordVotes(store: Store, pollId: Id, optionIds: seq<Id>, now: Timestamp): (r: Store)
    ensures r.polls == store.polls && r.poll_options == store.poll_options
    ensures Valid(store) ==> Valid(r)
    decreases |optionIds|
  {
    if optionIds == [] then store
    else
      AcceptVote(RecordVotes(store, pollId, optionIds[..|optionIds| - 1], now),
                 pollId, optionIds[|optionIds| - 1], None, None, now)
  }

  /** Recording votes appends one anonymous vote per option id, in order,
      with fresh identifiers, and keeps the earlier votes. */
  lemma {:induction false} RecordedVotes(store: Store, pollId: Id, optionIds: seq<Id>, now: Timestamp)
    ensures var r := RecordVotes(store, pollId, optionIds, now);
            && |r.votes| == |store.votes| + |optionIds|
            && r.votes[..|store.votes|] == store.votes
            && r.nextId == store.nextId + |optionIds|
            && forall k :: 0 <= k < |optionIds| ==>
                 r.votes[|store.votes| + k] == Vote(store.nextId + k, pollId, optionIds[k], None, None, now)
    decreases |optionIds|
  {
    if optionIds != [] {
      var n := |optionIds| - 1;
      var prefix := optionIds[..n];
      RecordedVotes(store, pollId, prefix, now);
      var before := RecordVotes(store, pollId, prefix, now);
      var r := RecordVotes(store, pollId, optionIds, now);
      assert r.votes == before.votes + [Vote(before.nextId, pollId, optionIds[n], None, None, now)];
      assert r.votes[..|store.votes|] == before.votes[..|store.votes|];
      forall k | 0 <= k < n
        ensures r.votes[|store.votes| + k] == Vote(store.nextId + k, pollId, optionIds[k], None, None, now)
      {
        assert r.votes[|store.votes| + k] == before.votes[|store.votes| + k];
        assert prefix[k] == optionIds[k];
      }
    }
  }
}
