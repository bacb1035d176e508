/** The owner-only operations on a poll: editing its text while no vote has
    been cast, and deleting it together with its votes (Server/server.js, the
    update and delete handlers). */
module PollEditing {
  import opened Seqs
  import opened Snapshot
  import opened PollRegistry
  import opened BallotBox

  /** A falsy replacement keeps the current value; a truthy one replaces it. */
  function Keep(field: Option<string>, current: string): (r: string)
    ensures Truthy(field) ==> r == field.value
    ensures !Truthy(field) ==> r == current
  {
    if Truthy(field) then field.value else current
  }

  /** The update handler; `title` and `description` are None when the body
      omits them. */
  function UpdatePoll(db: Db, callerId: int, pollId: int,
                      title: Option<string>, description: Option<string>): (r: Result<Db>)
    ensures r == Err(NotFound) <==> PollIndex(db.polls, pollId).None?
    ensures r == Err(Forbidden) <==>
              PollIndex(db.polls, pollId).Some? && db.polls[PollIndex(db.polls, pollId).value].ownerId != callerId
    ensures r == Err(Locked) <==>
              PollIndex(db.polls, pollId).Some? && db.polls[PollIndex(db.polls, pollId).value].ownerId == callerId
              && exists j :: 0 <= j < |db.votes| && db.votes[j].pollId == pollId
    ensures r.Err? ==> r.error in {NotFound, Forbidden, Locked}
    ensures r.Ok? ==>
      var k := PollIndex(db.polls, pollId).value;
      var p := db.polls[k];
      && r.value.users == db.users && r.value.votes == db.votes
      && |r.value.polls| == |db.polls|
      && (forall j :: 0 <= j < |db.polls| && j != k ==> r.value.polls[j] == db.polls[j])
      && r.value.polls[k] == p.(title := Keep(title, p.title), description := Keep(description, p.description))
  {
    match PollIndex(db.polls, pollId)
    case None => Err(NotFound)
    case Some(k) =>
      var p := db.polls[k];
      if p.ownerId != callerId then Err(Forbidden)
      else if HasVotes(db.votes, pollId) then Err(Locked)
      else Ok(db.(polls := db.polls[k := p.(title := Keep(title, p.title),
                                           description := Keep(description, p.description))]))
  }

  /** Once a poll has a vote, no caller can edit it: the owner is refused with
      Locked, anyone else with Forbidden. */
  lemma UpdateLockedAfterVote(db: Db, callerId: int, pollId: int,
                              title: Option<string>, description: Option<string>, j: nat)
    requires j < |db.votes| && db.votes[j].pollId == pollId
    ensures UpdatePoll(db, callerId, pollId, title, description).Err?
    ensures PollIndex(db.polls, pollId).Some? && db.polls[PollIndex(db.polls, pollId).value].ownerId == callerId
            ==> UpdatePoll(db, callerId, pollId, title, description) == Err(Locked)
  {
  }

  /** The delete handler: the first poll with the id goes, and so does every
      vote for that id. */
  function DeletePoll(db: Db, callerId: int, pollId: int): (r: Result<Db>)
    ensures r == Err(NotFound) <==> PollIndex(db.polls, pollId).None?
    ensures r == Err(Forbidden) <==>
              PollIndex(db.polls, pollId).Some? && db.polls[PollIndex(db.polls, pollId).value].ownerId != callerId
    ensures r.Err? ==> r.error in {NotFound, Forbidden}
    ensures r.Ok? ==>
      var k := PollIndex(db.polls, pollId).value;
      && r.value.users == db.users
      && r.value.polls == db.polls[..k] + db.polls[k + 1..]
      && r.value.votes == RemoveVotesOf(db.votes, pollId)
  {
    match PollIndex(db.polls, pollId)
    case None => Err(NotFound)
    case Some(k) =>
      if db.polls[k].ownerId != callerId then Err(Forbidden)
      else Ok(Db(db.users, db.polls[..k] + db.polls[k + 1..], RemoveVotesOf(db.votes, pollId)))
  }

  /** After a deletion no vote for the poll is left, and every vote for
      another poll is. */
  lemma DeleteCascades(db: Db, callerId: int, pollId: int)
    requires DeletePoll(db, callerId, pollId).Ok?
    ensures var db1 := DeletePoll(db, callerId, pollId).value;
            && (forall j :: 0 <= j < |db1.votes| ==> db1.votes[j].pollId != pollId)
            && (forall j :: 0 <= j < |db.votes| && db.votes[j].pollId != pollId ==> db.votes[j] in db1.votes)
            && PollVoteCount(db1.votes, pollId) == 0
  {
    var db1 := DeletePoll(db, callerId, pollId).value;
    forall j | 0 <= j < |db1.votes| ensures db1.votes[j].pollId != pollId {
      assert db1.votes[j] in db1.votes;
    }
    NoVotesCountZero(db1.votes, pollId);
  }

  lemma {:induction false} NoVotesCountZero(votes: seq<Vote>, pollId: int)
    requires forall j :: 0 <= j < |votes| ==> votes[j].pollId != pollId
    ensures PollVoteCount(votes, pollId) == 0
  {
    if |votes| > 0 {
      NoVotesCountZero(votes[..|votes| - 1], pollId);
    }
  }
}
