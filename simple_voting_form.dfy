/** The one-choice voting form: a radio group holding at most one selected
    option id, a submit handler that records one vote, and the results shown
    right after voting with the new vote added on the client side. */
module SimpleVotingForm {
  import opened Wrappers
  import opened Database
  import opened Polls
  import opened Tally

  const SelectAnOption := "Please select an option"
  const VoteFailedFallback := "Failed to submit vote"

  /** The count shown for `option` after voting: one more for the option
      just voted for. */
  function DisplayedVotes(option: PollOption, selected: Option<Id>): (votes: int)
    ensures selected == Some(option.id) ==> votes == option.votes + 1
    ensures selected != Some(option.id) ==> votes == option.votes
  {
    option.votes + (if selected == Some(option.id) then 1 else 0)
  }

  /** The total shown after voting. */
  function DisplayedTotal(options: seq<PollOption>): (total: int)
    ensures total == SumVotes(options) + 1
  {
    TotalVotes(options) + 1
  }

  /** The options with their displayed counts. */
  function Shown(options: seq<PollOption>, selected: Option<Id>): (shown: seq<PollOption>)
    ensures |shown| == |options|
    ensures forall k :: 0 <= k < |options| ==>
              shown[k] == options[k].(votes := DisplayedVotes(options[k], selected))
    decreases |options|
  {
    if options == [] then []
    else [options[0].(votes := DisplayedVotes(options[0], selected))] + Shown(options[1..], selected)
  }

  /** The selection is the id of one of the options. */
  ghost predicate Chosen(options: seq<PollOption>, selected: Option<Id>) {
    selected.Some? && exists k :: 0 <= k < |options| && options[k].id == selected.value
  }

  /** With distinct option ids, the displayed counts add up to the stored
      total plus one exactly when the selection is one of the options, and to
      the stored total otherwise. */
  lemma {:induction false} DisplayedCountsAddUp(options: seq<PollOption>, selected: Option<Id>)
    requires DistinctOptionIds(options)
    ensures Chosen(options, selected) ==> SumVotes(Shown(options, selected)) == DisplayedTotal(options)
    ensures !Chosen(options, selected) ==> SumVotes(Shown(options, selected)) == TotalVotes(options)
    decreases |options|
  {
    if options != [] {
      var rest := options[1..];
      DistinctTail(options);
      DisplayedCountsAddUp(rest, selected);
      ShownTail(options, selected);
      if selected == Some(options[0].id) {
        ChosenHead(options, selected);
      } else {
        ChosenTail(options, selected);
      }
    }
  }

  lemma DistinctTail(options: seq<PollOption>)
    requires options != [] && DistinctOptionIds(options)
    ensures DistinctOptionIds(options[1..])
  {
    var rest := options[1..];
    forall i, j | 0 <= i < j < |rest|
      ensures rest[i].id != rest[j].id
    {
      assert rest[i] == options[i + 1] && rest[j] == options[j + 1];
    }
  }

  lemma ShownTail(options: seq<PollOption>, selected: Option<Id>)
    requires options != []
    ensures Shown(options, selected)[1..] == Shown(options[1..], selected)
  {
  }

  /** The first option is the chosen one, and no later option is. */
  lemma ChosenHead(options: seq<PollOption>, selected: Option<Id>)
    requires options != [] && DistinctOptionIds(options)
    requires selected == Some(options[0].id)
    ensures Chosen(options, selected) && !Chosen(options[1..], selected)
  {
    var rest := options[1..];
    forall k | 0 <= k < |rest|
      ensures rest[k].id != selected.value
    {
      assert rest[k] == options[k + 1];
    }
  }

  /** When the first option is not the chosen one, the chosen one is among
      the others. */
  lemma ChosenTail(options: seq<PollOption>, selected: Option<Id>)
    requires options != []
    requires selected != Some(options[0].id)
    ensures Chosen(options, selected) <==> Chosen(options[1..], selected)
  {
    var rest := options[1..];
    if Chosen(options, selected) {
      var k :| 0 <= k < |options| && options[k].id == selected.value;
      assert rest[k - 1] == options[k];
    }
    if Chosen(rest, selected) {
      var k :| 0 <= k < |rest| && rest[k].id == selected.value;
      assert options[k + 1] == rest[k];
    }
  }

  /** The percentage shown after voting, as written: 0 whenever the stored
      total is 0, and otherwise the displayed count over the displayed
      total. */
  function OptimisticPercentage(option: PollOption, selected: Option<Id>, storedTotal: int): (p: real)
    ensures storedTotal <= 0 ==> p == 0.0
    ensures storedTotal > 0 ==>
              p * ((storedTotal + 1) as real) == (DisplayedVotes(option, selected) as real) * 100.0
  {
    if storedTotal > 0 then Percentage(DisplayedVotes(option, selected), storedTotal + 1) else 0.0
  }

  /** The percentage shown after voting, as evidently intended: the
      displayed count over the displayed total, which counts the new vote. */
  function CorrectedOptimisticPercentage(option: PollOption, selected: Option<Id>, storedTotal: int): (p: real)
    ensures storedTotal + 1 > 0 ==>
              p * ((storedTotal + 1) as real) == (DisplayedVotes(option, selected) as real) * 100.0
    ensures storedTotal + 1 <= 0 ==> p == 0.0
  {
    Percentage(DisplayedVotes(option, selected), storedTotal + 1)
  }

  /** Once a vote is stored, the as-written and the intended percentages
      agree. */
  lemma PercentagesAgreeOnceVoted(option: PollOption, selected: Option<Id>, storedTotal: int)
    requires storedTotal > 0
    ensures OptimisticPercentage(option, selected, storedTotal)
            == CorrectedOptimisticPercentage(option, selected, storedTotal)
  {
  }

  /** The first vote on a poll, as written: the only option is voted for and
      shows 1 vote, yet its bar shows 0%, where the intended percentage is
      100%. */
  lemma FirstVoteShowsZeroPercent(option: PollOption)
    requires option.votes == 0
    ensures TotalVotes([option]) == 0
    ensures DisplayedVotes(option, Some(option.id)) == 1
    ensures OptimisticPercentage(option, Some(option.id), TotalVotes([option])) == 0.0
    ensures CorrectedOptimisticPercentage(option, Some(option.id), TotalVotes([option])) == 100.0
  {
    assert [option][1..] == [];
    assert SumVotes([option]) == 0;
  }

  /** The intended percentages, over the displayed counts, add up to 100
      whenever the voted option is one of the options and no stored count
      is negative. */
  lemma CorrectedSharesAddUp(options: seq<PollOption>, selected: Option<Id>)
    requires DistinctOptionIds(options) && NonNegativeVotes(options)
    requires Chosen(options, selected)
    ensures SumPercentages(Shown(options, selected), TotalVotes(options) + 1) == 100.0
  {
    var shown := Shown(options, selected);
    var total := TotalVotes(options) + 1;
    TotalBounds(options);
    DisplayedCountsAddUp(options, selected);
    assert SumVotes(shown) == total;
    SumPercentagesScaled(shown, total);
    WholeShare(SumPercentages(shown, total), total, SumVotes(shown));
  }

  /** The percentage of each shown option is the intended one. */
  lemma ShownPercentages(options: seq<PollOption>, selected: Option<Id>, k: nat)
    requires k < |options|
    ensures Percentage(Shown(options, selected)[k].votes, TotalVotes(options) + 1)
            == CorrectedOptimisticPercentage(options[k], selected, TotalVotes(options))
  {
  }

  /** The one-choice voting form of one poll. */
  class VotingFormState {
    const poll: PollWithOptions
    var selectedOption: Option<Id>
    var isSubmitting: bool
    var hasVoted: bool
    var error: Option<string>

    constructor(poll: PollWithOptions)
      ensures this.poll == poll
      ensures selectedOption == None && !isSubmitting && !hasVoted && error == None
    {
      this.poll := poll;
      selectedOption := None;
      isSubmitting := false;
      hasVoted := false;
      error := None;
    }

    /** A radio's change event: its option becomes the only selection. The
        radios are disabled while a vote is being sent. */
    method ChooseOption(optionId: Id)
      modifies this`selectedOption
      ensures !isSubmitting ==> selectedOption == Some(optionId)
      ensures isSubmitting ==> selectedOption == old(selectedOption)
    {
      if !isSubmitting {
        selectedOption := Some(optionId);
      }
    }

    /** The submit button is off while a vote is being sent or nothing is
        selected. After `HandleSubmit` it stays off once the vote went
        through, and is on again after a failure. */
    function SubmitDisabled(): bool
      reads this
    {
      isSubmitting || selectedOption.None?
    }

    /** `handleSubmit` for a stored poll: `reply` is the store's answer to
        the vote. */
    method HandleSubmit(store: Store, now: Timestamp, reply: WriteOutcome) returns (store': Store)
      modifies this`isSubmitting, this`hasVoted, this`error
      ensures selectedOption.None? ==>
                && store' == store && error == Some(SelectAnOption)
                && isSubmitting == old(isSubmitting) && hasVoted == old(hasVoted)
      ensures selectedOption.Some? && reply.Accepted? ==>
                && store' == RecordVotes(store, poll.poll.id, [selectedOption.value], now)
                && hasVoted && isSubmitting && error == None
      ensures selectedOption.Some? && reply.Rejected? ==>
                && store' == store && hasVoted == old(hasVoted) && !isSubmitting
                && error == Some(ErrorMessage(reply.thrown, VoteFailedFallback))
      ensures Polls.Valid(store) ==> Polls.Valid(store')
      ensures selectedOption.None? ==> SubmitDisabled()
      ensures selectedOption.Some? ==> (SubmitDisabled() <==> reply.Accepted?)
    {
      if selectedOption.None? {
        error := Some(SelectAnOption);
        return store;
      }
      isSubmitting := true;
      error := None;
      var result := VoteOnPoll(store, poll.poll.id, selectedOption.value, None, None, now, reply);
      if result.VoteFailed? {
        error := Some(ErrorMessage(result.thrown, VoteFailedFallback));
        isSubmitting := false;
        return store;
      }
      assert [selectedOption.value][..0] == [];
      store' := result.store;
      hasVoted := true;
    }
  }
}
