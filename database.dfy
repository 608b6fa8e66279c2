/**
 * The rows of the three tables the application reads and writes, and the
 * joined shape the pages pass to the voting components.
 *
 * Identifiers and creation times are generated by the store. They are
 * modelled as natural numbers: an identifier is a serial the store hands
 * out once, a timestamp an instant that can be compared.
 */
module Database {
  import opened Wrappers

  type Id = nat
  type Timestamp = nat

  /** A poll row. `description`, `user_id` and `expires_at` may be null. */
  datatype Poll = Poll(
    id: Id,
    title: string,
    description: Option<string>,
    created_at: Timestamp,
    updated_at: Timestamp,
    user_id: Option<Id>,
    is_active: bool,
    allow_multiple_votes: bool,
    expires_at: Option<string>,
    share_code: string)

  /** One answer of a poll with its integer vote counter. */
  datatype PollOption = PollOption(
    id: Id,
    poll_id: Id,
    text: string,
    votes: int,
    created_at: Timestamp)

  /** One cast vote: an append-only record. */
  datatype Vote = Vote(
    id: Id,
    poll_id: Id,
    option_id: Id,
    user_id: Option<Id>,
    voter_ip: Option<string>,
    created_at: Timestamp)

  /** A poll together with its options, as the queries return it. */
  datatype PollWithOptions = PollWithOptions(poll: Poll, poll_options: seq<PollOption>)

  /** No two options in the list share an identifier. */
  ghost predicate DistinctOptionIds(options: seq<PollOption>) {
    forall i, j :: 0 <= i < j < |options| ==> options[i].id != options[j].id
  }

  /** Every vote counter is non-negative. */
  ghost predicate NonNegativeVotes(options: seq<PollOption>) {
    forall k :: 0 <= k < |options| ==> options[k].votes >= 0
  }
}
