/** The invariants every committed snapshot keeps, and the proofs that each
    handler preserves them: unique ids, unique usernames, options numbered
    1..N, at most one vote per user per poll, and every vote naming an option
    of an existing poll. */
module Consistency {
  import opened Seqs
  import opened Snapshot
  import opened Identity
  import opened PollRegistry
  import opened BallotBox
  import opened PollEditing

  ghost predicate DistinctUserIds(users: seq<User>) {
    forall i, j :: 0 <= i < j < |users| ==> users[i].id != users[j].id
  }

  ghost predicate DistinctUsernames(users: seq<User>) {
    forall i, j :: 0 <= i < j < |users| ==> users[i].username != users[j].username
  }

  ghost predicate DistinctPollIds(polls: seq<Poll>) {
    forall i, j :: 0 <= i < j < |polls| ==> polls[i].id != polls[j].id
  }

  ghost predicate AllNumbered(polls: seq<Poll>) {
    forall i :: 0 <= i < |polls| ==> Numbered(polls[i].options)
  }

  ghost predicate DistinctVoteIds(votes: seq<Vote>) {
    forall i, j :: 0 <= i < j < |votes| ==> votes[i].id != votes[j].id
  }

  /** At most one vote per (poll, user) pair. */
  ghost predicate OneVotePerUser(votes: seq<Vote>) {
    forall i, j :: 0 <= i < j < |votes| ==>
      !(votes[i].pollId == votes[j].pollId && votes[i].userId == votes[j].userId)
  }

  /** The vote names a stored poll and one of that poll's option ids. */
  ghost predicate VoteFits(polls: seq<Poll>, v: Vote) {
    exists m :: 0 <= m < |polls| && polls[m].id == v.pollId && 1 <= v.optionId <= |polls[m].options|
  }

  ghost predicate VotesFit(polls: seq<Poll>, votes: seq<Vote>) {
    forall i :: 0 <= i < |votes| ==> VoteFits(polls, votes[i])
  }

  ghost predicate Consistent(db: Db) {
    && DistinctUserIds(db.users) && DistinctUsernames(db.users)
    && DistinctPollIds(db.polls) && AllNumbered(db.polls)
    && DistinctVoteIds(db.votes) && OneVotePerUser(db.votes)
    && VotesFit(db.polls, db.votes)
  }

  lemma EmptyConsistent()
    ensures Consistent(Empty)
  {
  }

  lemma RegisterPreserves(db: Db, username: Option<string>, password: Option<string>, hash: string)
    requires Consistent(db) && Register(db, username, password, hash).Ok?
    ensures Consistent(Register(db, username, password, hash).value)
  {
  }

  lemma CreatePollPreserves(db: Db, ownerId: int, title: Option<string>, description: Option<string>,
                            options: Option<seq<string>>, createdAt: int)
    requires Consistent(db) && CreatePoll(db, ownerId, title, description, options, createdAt).Ok?
    ensures Consistent(CreatePoll(db, ownerId, title, description, options, createdAt).value)
  {
  }

  lemma CastPreserves(db: Db, userId: int, pollId: int, optionId: Option<int>, createdAt: int)
    requires Consistent(db) && Cast(db, userId, pollId, optionId, createdAt).Ok?
    ensures Consistent(Cast(db, userId, pollId, optionId, createdAt).value)
  {
  }

  lemma UpdatePollPreserves(db: Db, callerId: int, pollId: int, title: Option<string>, description: Option<string>)
    requires Consistent(db) && UpdatePoll(db, callerId, pollId, title, description).Ok?
    ensures Consistent(UpdatePoll(db, callerId, pollId, title, description).value)
  {
  }

  /** Removing one poll keeps the others, in order. */
  lemma RemoveAtShifts(polls: seq<Poll>, k: nat)
    requires k < |polls|
    ensures |polls[..k] + polls[k + 1..]| == |polls| - 1
    ensures forall i :: 0 <= i < k ==> (polls[..k] + polls[k + 1..])[i] == polls[i]
    ensures forall i :: k < i < |polls| ==> (polls[..k] + polls[k + 1..])[i - 1] == polls[i]
  {
  }

  lemma RemoveVotesKeepsPairwise(votes: seq<Vote>, pollId: int)
    requires DistinctVoteIds(votes) && OneVotePerUser(votes)
    ensures DistinctVoteIds(RemoveVotesOf(votes, pollId)) && OneVotePerUser(RemoveVotesOf(votes, pollId))
  {
  }

  lemma RemoveKeepsFit(polls: seq<Poll>, votes: seq<Vote>, k: nat)
    requires k < |polls| && VotesFit(polls, votes)
    ensures VotesFit(polls[..k] + polls[k + 1..], RemoveVotesOf(votes, polls[k].id))
  {
    var pollId := polls[k].id;
    var polls1, votes1 := polls[..k] + polls[k + 1..], RemoveVotesOf(votes, pollId);
    RemoveAtShifts(polls, k);
    forall i | 0 <= i < |votes1| ensures VoteFits(polls1, votes1[i]) {
      var v := votes1[i];
      assert v in votes && v.pollId != pollId;
      var i0 :| 0 <= i0 < |votes| && votes[i0] == v;
      assert VoteFits(polls, votes[i0]);
      var m :| 0 <= m < |polls| && polls[m].id == v.pollId && 1 <= v.optionId <= |polls[m].options|;
      var m' := if m < k then m else m - 1;
      assert polls1[m'] == polls[m];
    }
  }

  lemma DeletePollPreserves(db: Db, callerId: int, pollId: int)
    requires Consistent(db) && DeletePoll(db, callerId, pollId).Ok?
    ensures Consistent(DeletePoll(db, callerId, pollId).value)
  {
    var k := PollIndex(db.polls, pollId).value;
    RemoveAtShifts(db.polls, k);
    RemoveVotesKeepsPairwise(db.votes, pollId);
    RemoveKeepsFit(db.polls, db.votes, k);
  }

  /** In a consistent snapshot the tallies of a stored poll add up to the
      number of votes cast in it. */
  lemma TallyTotalInConsistent(db: Db, k: nat)
    requires Consistent(db) && k < |db.polls|
    ensures TallyTotal(Tally(db.polls[k].options, db.votes, db.polls[k].id)) == PollVoteCount(db.votes, db.polls[k].id)
  {
    var p := db.polls[k];
    forall i | 0 <= i < |db.votes| && db.votes[i].pollId == p.id
      ensures HasOption(p.options, db.votes[i].optionId)
    {
      var m :| 0 <= m < |db.polls| && db.polls[m].id == db.votes[i].pollId && 1 <= db.votes[i].optionId <= |db.polls[m].options|;
      assert m == k;
      NumberedOptionIds(p.options, db.votes[i].optionId);
    }
    TallyTotalIsPollVoteCount(p.options, db.votes, p.id);
  }

  /** A deleted poll can no longer be found. */
  lemma DeletedPollGone(db: Db, callerId: int, pollId: int)
    requires Consistent(db) && DeletePoll(db, callerId, pollId).Ok?
    ensures PollIndex(DeletePoll(db, callerId, pollId).value.polls, pollId).None?
  {
  }

  /** The id of a deleted poll is not reissued while a poll with a larger id
      remains. */
  lemma DeletedIdNotReissued(db: Db, callerId: int, pollId: int, j: nat)
    requires DeletePoll(db, callerId, pollId).Ok?
    requires j < |DeletePoll(db, callerId, pollId).value.polls|
    requires DeletePoll(db, callerId, pollId).value.polls[j].id > pollId
    ensures NextId(PollIds(DeletePoll(db, callerId, pollId).value.polls)) > pollId
  {
  }
}
