/** The voting card of a poll: a selection of option ids that a click
    toggles (several-vote polls) or replaces (single-vote polls), and a vote
    handler that records one vote per selected id, in order, until the
    first failure. */
module PollVoting {
  import opened Wrappers
  import opened Database
  import opened Polls
  import opened Tally

  const SelectAtLeastOne := "Please select at least one option"
  const VoteFailedFallback := "Failed to submit vote"

  /** No id occurs twice. */
  ghost predicate NoDup(ids: seq<Id>) {
    forall i, j :: 0 <= i < j < |ids| ==> ids[i] != ids[j]
  }

  /** `prev.filter(id => id !== optionId)`. */
  function Without(selection: seq<Id>, optionId: Id): (r: seq<Id>)
    ensures multiset(r) == multiset(selection)[optionId := 0]
    ensures forall x :: x in r <==> x in selection && x != optionId
    decreases |selection|
  {
    if selection == [] then []
    else
      var rest := Without(selection[1..], optionId);
      assert selection == [selection[0]] + selection[1..];
      if selection[0] == optionId then rest else [selection[0]] + rest
  }

  /** Filtering out the id just appended gives back the selection before
      it. */
  lemma {:induction false} WithoutAppended(prefix: seq<Id>, optionId: Id)
    requires optionId !in prefix
    ensures Without(prefix + [optionId], optionId) == prefix
    decreases |prefix|
  {
    if prefix == [] {
      assert [] + [optionId] == [optionId];
      assert [optionId][1..] == [];
    } else {
      assert (prefix + [optionId])[1..] == prefix[1..] + [optionId];
      WithoutAppended(prefix[1..], optionId);
      assert prefix == [prefix[0]] + prefix[1..];
    }
  }

  lemma {:induction false} WithoutKeepsNoDup(selection: seq<Id>, optionId: Id)
    requires NoDup(selection)
    ensures NoDup(Without(selection, optionId))
    decreases |selection|
  {
    if selection != [] {
      assert NoDup(selection[1..]) by {
        forall i, j | 0 <= i < j < |selection[1..]|
          ensures selection[1..][i] != selection[1..][j]
        {
          assert selection[1..][i] == selection[i + 1] && selection[1..][j] == selection[j + 1];
        }
      }
      WithoutKeepsNoDup(selection[1..], optionId);
      assert selection[0] !in selection[1..] by {
        forall k | 0 <= k < |selection[1..]|
          ensures selection[1..][k] != selection[0]
        {
          assert selection[1..][k] == selection[k + 1];
        }
      }
    }
  }

  /** The multi-vote click: drop the id when selected, append it otherwise. */
  function Toggle(selection: seq<Id>, optionId: Id): (r: seq<Id>)
    ensures optionId in r <==> optionId !in selection
    ensures forall x :: x != optionId ==> (x in r <==> x in selection)
    ensures optionId !in selection ==> r == selection + [optionId]
  {
    if optionId in selection then Without(selection, optionId) else selection + [optionId]
  }

  /** `handleOptionSelect`'s new selection. */
  function Select(allowMultipleVotes: bool, selection: seq<Id>, optionId: Id): (r: seq<Id>)
    ensures !allowMultipleVotes ==> r == [optionId]
    ensures allowMultipleVotes ==> r == Toggle(selection, optionId)
  {
    if allowMultipleVotes then Toggle(selection, optionId) else [optionId]
  }

  /** A toggle never creates a duplicate. */
  lemma ToggleKeepsNoDup(selection: seq<Id>, optionId: Id)
    requires NoDup(selection)
    ensures NoDup(Toggle(selection, optionId))
  {
    if optionId in selection {
      WithoutKeepsNoDup(selection, optionId);
    } else {
      var r := selection + [optionId];
      forall i, j | 0 <= i < j < |r|
        ensures r[i] != r[j]
      {
        if j == |selection| {
          assert r[i] == selection[i];
        } else {
          assert r[i] == selection[i] && r[j] == selection[j];
        }
      }
    }
  }

  /** Clicking the same option twice gives back the same set of selected
      ids. */
  lemma ToggleTwiceSameIds(selection: seq<Id>, optionId: Id)
    ensures forall x :: x in Toggle(Toggle(selection, optionId), optionId) <==> x in selection
  {
  }

  /** Clicking the same option twice gives back the very same sequence
      exactly when the id was not selected, or was the last one selected;
      otherwise the id moves to the end. */
  lemma ToggleTwiceRestores(selection: seq<Id>, optionId: Id)
    requires NoDup(selection)
    ensures Toggle(Toggle(selection, optionId), optionId) == selection
            <==> optionId !in selection || selection[|selection| - 1] == optionId
  {
    var once := Toggle(selection, optionId);
    var twice := Toggle(once, optionId);
    if optionId !in selection {
      WithoutAppended(selection, optionId);
    } else {
      assert optionId !in once;
      assert twice == once + [optionId];
      if selection[|selection| - 1] == optionId {
        var prefix := selection[..|selection| - 1];
        assert selection == prefix + [optionId];
        assert optionId !in prefix by {
          forall k | 0 <= k < |prefix|
            ensures prefix[k] != optionId
          {
            assert prefix[k] == selection[k];
          }
        }
        WithoutAppended(prefix, optionId);
      } else {
        assert twice[|twice| - 1] == optionId;
      }
    }
  }

  /** The selection after a run of clicks. */
  function SelectAll(allowMultipleVotes: bool, selection: seq<Id>, clicks: seq<Id>): seq<Id>
    decreases |clicks|
  {
    if clicks == [] then selection
    else SelectAll(allowMultipleVotes, Select(allowMultipleVotes, selection, clicks[0]), clicks[1..])
  }

  /** Any run of clicks, from the empty selection or any other valid one,
      keeps the selection free of duplicates, and single-vote polls keep at
      most one id. */
  lemma {:induction false} ClicksKeepNoDup(allowMultipleVotes: bool, selection: seq<Id>, clicks: seq<Id>)
    requires NoDup(selection)
    requires !allowMultipleVotes ==> |selection| <= 1
    ensures NoDup(SelectAll(allowMultipleVotes, selection, clicks))
    ensures !allowMultipleVotes ==> |SelectAll(allowMultipleVotes, selection, clicks)| <= 1
    decreases |clicks|
  {
    if clicks != [] {
      if allowMultipleVotes {
        ToggleKeepsNoDup(selection, clicks[0]);
      }
      ClicksKeepNoDup(allowMultipleVotes, Select(allowMultipleVotes, selection, clicks[0]), clicks[1..]);
    }
  }

  /** The position of the first rejected vote among the first `n`, or `n`
      when all of them are accepted. */
  function FirstFailure(replies: nat -> WriteOutcome, n: nat): (k: nat)
    ensures k <= n
    ensures forall j :: 0 <= j < k ==> replies(j).Accepted?
    ensures k < n ==> replies(k).Rejected?
  {
    if n == 0 then 0
    else
      var k := FirstFailure(replies, n - 1);
      if k < n - 1 then k
      else if replies(n - 1).Rejected? then n - 1
      else n
  }

  /** The vote card of one poll. */
  class VotingState {
    const poll: PollWithOptions
    var selectedOptions: seq<Id>
    var isVoting: bool
    var hasVoted: bool
    var error: Option<string>

    /** The selection has no duplicate, and at most one id when the poll
        takes one vote. */
    ghost predicate Valid()
      reads this
    {
      && NoDup(selectedOptions)
      && (!poll.poll.allow_multiple_votes ==> |selectedOptions| <= 1)
    }

    constructor(poll: PollWithOptions)
      ensures this.poll == poll
      ensures selectedOptions == [] && !isVoting && !hasVoted && error == None
      ensures Valid()
    {
      this.poll := poll;
      selectedOptions := [];
      isVoting := false;
      hasVoted := false;
      error := None;
    }

    /** `totalVotes`, over the options the card was given. */
    function TotalShown(): (total: int)
      reads this
      ensures total == SumVotes(poll.poll_options)
    {
      TotalVotes(poll.poll_options)
    }

    /** The vote button is off while votes are being sent or nothing is
        selected. After `HandleVote` it stays off when every vote went
        through, and is on again, for a retry, after a failure. */
    function SubmitDisabled(): bool
      reads this
    {
      isVoting || |selectedOptions| == 0
    }

    /** `handleOptionSelect`. */
    method HandleOptionSelect(optionId: Id)
      requires Valid()
      modifies this`selectedOptions
      ensures selectedOptions == Select(poll.poll.allow_multiple_votes, old(selectedOptions), optionId)
      ensures Valid()
    {
      if poll.poll.allow_multiple_votes {
        ToggleKeepsNoDup(selectedOptions, optionId);
        if optionId in selectedOptions {
          selectedOptions := Without(selectedOptions, optionId);
        } else {
          selectedOptions := selectedOptions + [optionId];
        }
      } else {
        selectedOptions := [optionId];
      }
    }

    /** `handleVote`: `replies(i)` is the store's answer to the vote for the
        `i`-th selected id. Votes are sent one at a time, in selection order,
        and the first failure ends the run; the votes before it stay
        recorded. */
    method HandleVote(store: Store, now: Timestamp, replies: nat -> WriteOutcome) returns (store': Store)
      modifies this`isVoting, this`hasVoted, this`error
      ensures selectedOptions == [] ==>
                && store' == store && error == Some(SelectAtLeastOne)
                && isVoting == old(isVoting) && hasVoted == old(hasVoted)
      ensures selectedOptions != [] ==>
                var k := FirstFailure(replies, |selectedOptions|);
                && store' == RecordVotes(store, poll.poll.id, selectedOptions[..k], now)
                && (k == |selectedOptions| ==> hasVoted && isVoting && error == None)
                && (k < |selectedOptions| ==>
                      && hasVoted == old(hasVoted) && !isVoting
                      && error == Some(ErrorMessage(replies(k).thrown, VoteFailedFallback)))
      ensures Polls.Valid(store) ==> Polls.Valid(store')
      ensures selectedOptions == [] ==> SubmitDisabled()
      ensures selectedOptions != [] ==>
                (SubmitDisabled() <==> FirstFailure(replies, |selectedOptions|) == |selectedOptions|)
    {
      if |selectedOptions| == 0 {
        error := Some(SelectAtLeastOne);
        return store;
      }
      isVoting := true;
      error := None;
      store' := store;
      var i := 0;
      while i < |selectedOptions|
        invariant 0 <= i <= |selectedOptions|
        invariant store' == RecordVotes(store, poll.poll.id, selectedOptions[..i], now)
        invariant forall j :: 0 <= j < i ==> replies(j).Accepted?
        invariant isVoting && error == None && hasVoted == old(hasVoted)
      {
        var result := VoteOnPoll(store', poll.poll.id, selectedOptions[i], None, None, now, replies(i));
        if result.VoteFailed? {
          error := Some(ErrorMessage(result.thrown, VoteFailedFallback));
          isVoting := false;
          FirstFailureAt(replies, |selectedOptions|, i);
          return;
        }
        assert selectedOptions[..i + 1][..i] == selectedOptions[..i];
        store' := result.store;
        i := i + 1;
      }
      assert selectedOptions[..i] == selectedOptions;
      FirstFailureNone(replies, |selectedOptions|);
      hasVoted := true;
    }
  }

  /** The first failure is the rejected reply that every earlier reply
      precedes. */
  lemma FirstFailureAt(replies: nat -> WriteOutcome, n: nat, i: nat)
    requires i < n && replies(i).Rejected?
    requires forall j :: 0 <= j < i ==> replies(j).Accepted?
    ensures FirstFailure(replies, n) == i
  {
  }

  lemma FirstFailureNone(replies: nat -> WriteOutcome, n: nat)
    requires forall j :: 0 <= j < n ==> replies(j).Accepted?
    ensures FirstFailure(replies, n) == n
  {
  }
}
