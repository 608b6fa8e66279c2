/** Vote tallies shown by the voting components: the total of the stored
    counts (a `reduce` over the options) and each option's share of it. */
module Tally {
  import opened Database

  /** `options.reduce((sum, option) => sum + option.votes, sum)`: a left
      fold that adds the counts one option at a time. */
  function Reduce(sum: int, options: seq<PollOption>): int
    decreases |options|
  {
    if options == [] then sum else Reduce(sum + options[0].votes, options[1..])
  }

  /** Reference definition: the plain sum of the stored counts. */
  function SumVotes(options: seq<PollOption>): int
    decreases |options|
  {
    if options == [] then 0 else options[0].votes + SumVotes(options[1..])
  }

  /** Folding from `sum` adds exactly the sum of the counts to `sum`. */
  lemma {:induction false} ReduceIsSum(sum: int, options: seq<PollOption>)
    ensures Reduce(sum, options) == sum + SumVotes(options)
    decreases |options|
  {
    if options != [] {
      ReduceIsSum(sum + options[0].votes, options[1..]);
    }
  }

  /** `totalVotes`: the fold started at 0, which is the sum of the counts. */
  function TotalVotes(options: seq<PollOption>): (total: int)
    ensures total == SumVotes(options)
  {
    ReduceIsSum(0, options);
    Reduce(0, options)
  }

  lemma {:induction false} SumVotesAppend(a: seq<PollOption>, b: seq<PollOption>)
    ensures SumVotes(a + b) == SumVotes(a) + SumVotes(b)
    decreases |a|
  {
    if a == [] {
      assert a + b == b;
    } else {
      assert (a + b)[1..] == a[1..] + b;
      SumVotesAppend(a[1..], b);
    }
  }

  /** With no negative count, the total is non-negative and no option has
      more votes than the total. */
  lemma {:induction false} TotalBounds(options: seq<PollOption>)
    requires NonNegativeVotes(options)
    ensures TotalVotes(options) >= 0
    ensures forall k :: 0 <= k < |options| ==> 0 <= options[k].votes <= TotalVotes(options)
    decreases |options|
  {
    if options != [] {
      assert NonNegativeVotes(options[1..]) by {
        forall k | 0 <= k < |options[1..]|
          ensures options[1..][k].votes >= 0
        {
          assert options[1..][k] == options[k + 1];
        }
      }
      TotalBounds(options[1..]);
      forall k | 1 <= k < |options|
        ensures options[k].votes <= TotalVotes(options)
      {
        assert options[k] == options[1..][k - 1];
      }
    }
  }

  /** `totalVotes > 0 ? (votes / totalVotes) * 100 : 0`, in exact
      arithmetic. */
  function Percentage(votes: int, total: int): (p: real)
    ensures total <= 0 ==> p == 0.0
    ensures total > 0 ==> p * (total as real) == (votes as real) * 100.0
  {
    if total > 0 then (votes as real / total as real) * 100.0 else 0.0
  }

  /** A count between 0 and a positive total gives a share between 0 and
      100. */
  lemma PercentageBounds(votes: int, total: int)
    requires 0 <= votes <= total
    ensures 0.0 <= Percentage(votes, total) <= 100.0
  {
    if total > 0 {
      var p := Percentage(votes, total);
      assert p * (total as real) <= 100.0 * (total as real);
    }
  }

  /** The shares of `options` against `total`, added up. */
  function SumPercentages(options: seq<PollOption>, total: int): real
    decreases |options|
  {
    if options == [] then 0.0
    else Percentage(options[0].votes, total) + SumPercentages(options[1..], total)
  }

  lemma {:induction false} SumPercentagesScaled(options: seq<PollOption>, total: int)
    requires total > 0
    ensures SumPercentages(options, total) * (total as real) == (SumVotes(options) as real) * 100.0
    decreases |options|
  {
    if options != [] {
      SumPercentagesScaled(options[1..], total);
      var p := Percentage(options[0].votes, total);
      var rest := SumPercentages(options[1..], total);
      calc {
        SumPercentages(options, total) * (total as real);
        (p + rest) * (total as real);
        p * (total as real) + rest * (total as real);
        (options[0].votes as real) * 100.0 + (SumVotes(options[1..]) as real) * 100.0;
        (SumVotes(options) as real) * 100.0;
      }
    }
  }

  /** The shares shown by the voting card add up to 100 when any vote is
      stored, and are all 0 otherwise. */
  lemma SharesAddUp(options: seq<PollOption>)
    ensures TotalVotes(options) > 0 ==> SumPercentages(options, TotalVotes(options)) == 100.0
    ensures TotalVotes(options) <= 0 ==> SumPercentages(options, TotalVotes(options)) == 0.0
  {
    var total := TotalVotes(options);
    if total > 0 {
      SumPercentagesScaled(options, total);
      WholeShare(SumPercentages(options, total), total, SumVotes(options));
    } else {
      AllZeroWithoutTotal(options, total);
    }
  }

  /** A sum of shares that scales back to the whole total is 100. */
  lemma WholeShare(p: real, total: int, sum: int)
    requires total > 0 && sum == total
    requires p * (total as real) == (sum as real) * 100.0
    ensures p == 100.0
  {
    var t := total as real;
    calc {
      p;
      (p * t) / t;
      (t * 100.0) / t;
      100.0;
    }
  }

  lemma {:induction false} AllZeroWithoutTotal(options: seq<PollOption>, total: int)
    requires total <= 0
    ensures SumPercentages(options, total) == 0.0
    decreases |options|
  {
    if options != [] {
      AllZeroWithoutTotal(options[1..], total);
    }
  }
}
