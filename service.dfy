/** The handlers as the server runs them: the poll-detail read, and a store
    object whose methods check a request and then change its three lists in
    place (Server/server.js, lines 64-177). */
module PollService {
  import opened Seqs
  import opened Snapshot
  import opened Identity
  import opened PollRegistry
  import opened BallotBox
  import opened PollEditing
  import opened Consistency

  datatype PollDetail = PollDetail(id: int, title: string, description: string, createdAt: int, owner: string,
                                   options: seq<OptionTally>, voted: bool, votedOptionId: Option<int>)

  /** The poll-detail handler, read for the caller `callerId`. */
  function Detail(db: Db, callerId: int, pollId: int): (r: Result<PollDetail>)
    ensures r.Err? <==> PollIndex(db.polls, pollId).None?
    ensures r.Err? ==> r.error == NotFound
    ensures r.Ok? ==>
      var p := db.polls[PollIndex(db.polls, pollId).value];
      && r.value.id == p.id == pollId
      && r.value.title == p.title && r.value.description == p.description && r.value.createdAt == p.createdAt
      && r.value.owner == OwnerName(db.users, p.ownerId)
      && r.value.options == Tally(p.options, db.votes, pollId)
    ensures r.Ok? ==>
      (r.value.voted <==> exists j :: 0 <= j < |db.votes| && db.votes[j].pollId == pollId && db.votes[j].userId == callerId)
    ensures r.Ok? ==> (r.value.votedOptionId.Some? <==> r.value.voted)
    ensures r.Ok? && r.value.voted ==>
      exists j :: 0 <= j < |db.votes| && db.votes[j].pollId == pollId && db.votes[j].userId == callerId
                  && db.votes[j].optionId == r.value.votedOptionId.value
                  && forall i :: 0 <= i < j ==> !(db.votes[i].pollId == pollId && db.votes[i].userId == callerId)
  {
    match PollIndex(db.polls, pollId)
    case None => Err(NotFound)
    case Some(k) =>
      var p := db.polls[k];
      var mine := UserVoteIndex(db.votes, pollId, callerId);
      Ok(PollDetail(p.id, p.title, p.description, p.createdAt, OwnerName(db.users, p.ownerId),
                    Tally(p.options, db.votes, pollId), mine.Some?,
                    if mine.Some? then Some(db.votes[mine.value].optionId) else None))
  }

  /** After a successful vote the detail read by the voter reports the vote,
      its option, and the chosen option's count one higher. */
  lemma VoteShownInDetail(db: Db, userId: int, pollId: int, optionId: Option<int>, createdAt: int, k: nat)
    requires Cast(db, userId, pollId, optionId, createdAt).Ok?
    ensures var db1 := Cast(db, userId, pollId, optionId, createdAt).value;
            var d0, d1 := Detail(db, userId, pollId), Detail(db1, userId, pollId);
            && d0.Ok? && d1.Ok?
            && !d0.value.voted && d0.value.votedOptionId == None
            && d1.value.voted && d1.value.votedOptionId == optionId
            && (k < |d1.value.options| ==>
                  d1.value.options[k].votes
                  == d0.value.options[k].votes + (if d1.value.options[k].id == optionId.value then 1 else 0))
  {
  }

  /** The server's state: the three lists of the snapshot, changed in place
      by the mutating handlers. */
  class Store {
    var users: seq<User>
    var polls: seq<Poll>
    var votes: seq<Vote>

    function State(): Db
      reads this
    {
      Db(users, polls, votes)
    }

    ghost predicate Valid()
      reads this
    {
      Consistent(State())
    }

    /** The snapshot written on first use. */
    constructor ()
      ensures State() == Empty && Valid()
    {
      users, polls, votes := [], [], [];
      EmptyConsistent();
    }

    method Register(username: Option<string>, password: Option<string>, passwordHash: string)
      returns (r: Result<()>)
      modifies this
      ensures Identity.Register(old(State()), username, password, passwordHash) == Committed(r, State())
      ensures r.Err? ==> State() == old(State())
      ensures old(Valid()) ==> Valid()
    {
      if !Truthy(username) || !Truthy(password) {
        return Err(InvalidInput);
      }
      if UserByName(users, username.value).Some? {
        return Err(Conflict);
      }
      ghost var before := State();
      var id := NextId(UserIds(users));
      users := users + [User(id, username.value, passwordHash)];
      r := Ok(());
      if Consistent(before) {
        RegisterPreserves(before, username, password, passwordHash);
      }
    }

    /** Answers the new poll's id. */
    method CreatePoll(callerId: int, title: Option<string>, description: Option<string>,
                      options: Option<seq<string>>, createdAt: int)
      returns (r: Result<int>)
      modifies this
      ensures PollRegistry.CreatePoll(old(State()), callerId, title, description, options, createdAt)
              == Committed(r, State())
      ensures r.Err? ==> State() == old(State())
      ensures r.Ok? ==> r.value == NextId(PollIds(old(polls))) && r.value == polls[|polls| - 1].id
      ensures old(Valid()) ==> Valid()
    {
      if !Truthy(title) || options.None? || |options.value| < 2 {
        return Err(InvalidInput);
      }
      ghost var before := State();
      var pid := NextId(PollIds(polls));
      var pollOptions := NumberOptions(options.value);
      polls := polls + [Poll(pid, callerId, title.value, if description.Some? then description.value else "",
                             createdAt, pollOptions)];
      r := Ok(pid);
      if Consistent(before) {
        CreatePollPreserves(before, callerId, title, description, options, createdAt);
      }
    }

    /** Answers the poll's tally after the vote. */
    method CastVote(callerId: int, pollId: int, optionId: Option<int>, createdAt: int)
      returns (r: Result<seq<OptionTally>>)
      modifies this
      ensures Cast(old(State()), callerId, pollId, optionId, createdAt) == Committed(r, State())
      ensures r.Err? ==> State() == old(State())
      ensures r.Ok? ==> PollIndex(polls, pollId).Some?
                        && r.value == Tally(polls[PollIndex(polls, pollId).value].options, votes, pollId)
      ensures old(Valid()) ==> Valid()
      ensures old(Valid()) && r.Ok? ==> TallyTotal(r.value) == PollVoteCount(votes, pollId)
    {
      if optionId.None? || optionId.value == 0 {
        return Err(InvalidInput);
      }
      var k := PollIndex(polls, pollId);
      if k.None? {
        return Err(NotFound);
      }
      var poll := polls[k.value];
      if !HasOption(poll.options, optionId.value) {
        return Err(InvalidInput);
      }
      if UserVoteIndex(votes, pollId, callerId).Some? {
        return Err(Conflict);
      }
      ghost var before := State();
      var vid := NextId(VoteIds(votes));
      votes := votes + [Vote(vid, pollId, optionId.value, callerId, createdAt)];
      r := Ok(Tally(poll.options, votes, pollId));
      if Consistent(before) {
        CastPreserves(before, callerId, pollId, optionId, createdAt);
        TallyTotalInConsistent(State(), k.value);
      }
    }

    method UpdatePoll(callerId: int, pollId: int, title: Option<string>, description: Option<string>)
      returns (r: Result<()>)
      modifies this
      ensures PollEditing.UpdatePoll(old(State()), callerId, pollId, title, description) == Committed(r, State())
      ensures r.Err? ==> State() == old(State())
      ensures old(Valid()) ==> Valid()
    {
      var k := PollIndex(polls, pollId);
      if k.None? {
        return Err(NotFound);
      }
      var i := k.value;
      if polls[i].ownerId != callerId {
        return Err(Forbidden);
      }
      if HasVotes(votes, pollId) {
        return Err(Locked);
      }
      ghost var before := State();
      ghost var p := polls[i];
      polls := polls[i := polls[i].(title := Keep(title, polls[i].title))];
      polls := polls[i := polls[i].(description := Keep(description, polls[i].description))];
      assert polls == before.polls[i := p.(title := Keep(title, p.title), description := Keep(description, p.description))];
      r := Ok(());
      if Consistent(before) {
        UpdatePollPreserves(before, callerId, pollId, title, description);
      }
    }

    method DeletePoll(callerId: int, pollId: int) returns (r: Result<()>)
      modifies this
      ensures PollEditing.DeletePoll(old(State()), callerId, pollId) == Committed(r, State())
      ensures r.Err? ==> State() == old(State())
      ensures old(Valid()) ==> Valid()
    {
      var k := PollIndex(polls, pollId);
      if k.None? {
        return Err(NotFound);
      }
      var i := k.value;
      if polls[i].ownerId != callerId {
        return Err(Forbidden);
      }
      ghost var before := State();
      polls := polls[..i] + polls[i + 1..];
      votes := RemoveVotesOf(votes, pollId);
      r := Ok(());
      if Consistent(before) {
        DeletePollPreserves(before, callerId, pollId);
      }
    }
  }
}
