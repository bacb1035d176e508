/** The votes collection: per-option tallies, a user's vote, casting, and the
    vote filter used when a poll is deleted (Server/server.js, the vote handler
    and the tally of the detail and vote handlers). */
module BallotBox {
  import opened Seqs
  import opened Snapshot
  import opened PollRegistry

  /** The number of votes naming both the poll and the option. */
  function CountVotes(votes: seq<Vote>, pollId: int, optionId: int): (n: nat)
    ensures n <= PollVoteCount(votes, pollId)
    ensures n == 0 <==> forall j :: 0 <= j < |votes| ==> !(votes[j].pollId == pollId && votes[j].optionId == optionId)
  {
    if |votes| == 0 then 0
    else
      var v := votes[|votes| - 1];
      CountVotes(votes[..|votes| - 1], pollId, optionId)
        + (if v.pollId == pollId && v.optionId == optionId then 1 else 0)
  }

  /** The number of votes cast in a poll. */
  function PollVoteCount(votes: seq<Vote>, pollId: int): nat
  {
    if |votes| == 0 then 0
    else PollVoteCount(votes[..|votes| - 1], pollId) + (if votes[|votes| - 1].pollId == pollId then 1 else 0)
  }

  datatype OptionTally = OptionTally(id: int, text: string, votes: nat)

  /** Each option of the poll, in order, with its id, its text and its vote count. */
  function Tally(options: seq<PollOption>, votes: seq<Vote>, pollId: int): (r: seq<OptionTally>)
    ensures |r| == |options|
    ensures forall k :: 0 <= k < |r| ==>
              r[k] == OptionTally(options[k].id, options[k].text, CountVotes(votes, pollId, options[k].id))
  {
    if |options| == 0 then []
    else
      var o := options[|options| - 1];
      Tally(options[..|options| - 1], votes, pollId) + [OptionTally(o.id, o.text, CountVotes(votes, pollId, o.id))]
  }

  /** The sum of the per-option counts. */
  function TallyTotal(t: seq<OptionTally>): nat
  {
    if |t| == 0 then 0 else TallyTotal(t[..|t| - 1]) + t[|t| - 1].votes
  }

  /** How many options carry the id `optionId`. */
  function OptionCount(options: seq<PollOption>, optionId: int): nat
  {
    if |options| == 0 then 0
    else OptionCount(options[..|options| - 1], optionId) + (if options[|options| - 1].id == optionId then 1 else 0)
  }

  predicate DistinctOptionIds(options: seq<PollOption>)
  {
    forall i, j :: 0 <= i < j < |options| ==> options[i].id != options[j].id
  }

  lemma {:induction false} OptionCountOne(options: seq<PollOption>, optionId: int)
    requires DistinctOptionIds(options)
    ensures OptionCount(options, optionId) == if HasOption(options, optionId) then 1 else 0
  {
    if |options| > 0 {
      var init := options[..|options| - 1];
      OptionCountOne(init, optionId);
      if options[|options| - 1].id == optionId {
        assert forall k :: 0 <= k < |init| ==> init[k].id != optionId;
      } else if HasOption(options, optionId) {
        var k :| 0 <= k < |options| && options[k].id == optionId;
        assert init[k].id == optionId;
      }
    }
  }

  lemma {:induction false} TallyTotalNoVotes(options: seq<PollOption>, pollId: int)
    ensures TallyTotal(Tally(options, [], pollId)) == 0
  {
    if |options| > 0 {
      var t := Tally(options, [], pollId);
      TallyTotalNoVotes(options[..|options| - 1], pollId);
      assert t[..|t| - 1] == Tally(options[..|options| - 1], [], pollId);
    }
  }

  /** One more vote adds one to the total for every option carrying its id. */
  lemma {:induction false} TallyTotalStep(options: seq<PollOption>, votes: seq<Vote>, v: Vote, pollId: int)
    ensures TallyTotal(Tally(options, votes + [v], pollId))
            == TallyTotal(Tally(options, votes, pollId)) + (if v.pollId == pollId then OptionCount(options, v.optionId) else 0)
  {
    assert (votes + [v])[..|votes|] == votes;
    if |options| > 0 {
      var init := options[..|options| - 1];
      TallyTotalStep(init, votes, v, pollId);
      var t1, t0 := Tally(options, votes + [v], pollId), Tally(options, votes, pollId);
      assert t1[..|t1| - 1] == Tally(init, votes + [v], pollId);
      assert t0[..|t0| - 1] == Tally(init, votes, pollId);
    }
  }

  /** The tallies of a poll add up to the number of votes cast in it, when
      option ids are distinct and every vote in the poll names one of them. */
  lemma {:induction false} TallyTotalIsPollVoteCount(options: seq<PollOption>, votes: seq<Vote>, pollId: int)
    requires DistinctOptionIds(options)
    requires forall i :: 0 <= i < |votes| && votes[i].pollId == pollId ==> HasOption(options, votes[i].optionId)
    ensures TallyTotal(Tally(options, votes, pollId)) == PollVoteCount(votes, pollId)
  {
    if |votes| == 0 {
      TallyTotalNoVotes(options, pollId);
    } else {
      var init, v := votes[..|votes| - 1], votes[|votes| - 1];
      assert votes == init + [v];
      TallyTotalIsPollVoteCount(options, init, pollId);
      TallyTotalStep(options, init, v, pollId);
      OptionCountOne(options, v.optionId);
    }
  }

  /** The position of the first vote of the user in the poll, if any. */
  function UserVoteIndex(votes: seq<Vote>, pollId: int, userId: int): (r: Option<nat>)
    ensures r.Some? ==> r.value < |votes| && votes[r.value].pollId == pollId && votes[r.value].userId == userId
    ensures r.Some? ==> forall j :: 0 <= j < r.value ==> !(votes[j].pollId == pollId && votes[j].userId == userId)
    ensures r.None? <==> forall j :: 0 <= j < |votes| ==> !(votes[j].pollId == pollId && votes[j].userId == userId)
  {
    FindIndex(votes, (v: Vote) => v.pollId == pollId && v.userId == userId)
  }

  /** Whether some vote names the poll. */
  predicate HasVotes(votes: seq<Vote>, pollId: int)
    ensures HasVotes(votes, pollId) <==> exists j :: 0 <= j < |votes| && votes[j].pollId == pollId
  {
    var r := FindIndex(votes, (v: Vote) => v.pollId == pollId);
    assert r.Some? ==> votes[r.value].pollId == pollId;
    r.Some?
  }

  /** The votes of every other poll, in their stored order. */
  function RemoveVotesOf(votes: seq<Vote>, pollId: int): (r: seq<Vote>)
    ensures forall v :: v in r <==> v in votes && v.pollId != pollId
    ensures |r| + PollVoteCount(votes, pollId) == |votes|
  {
    if |votes| == 0 then []
    else
      var init, v := votes[..|votes| - 1], votes[|votes| - 1];
      assert votes == init + [v];
      RemoveVotesOf(init, pollId) + (if v.pollId != pollId then [v] else [])
  }

  /** The filter works piecewise, so the votes it keeps keep their order. */
  lemma {:induction false} RemoveVotesOfConcat(a: seq<Vote>, b: seq<Vote>, pollId: int)
    ensures RemoveVotesOf(a + b, pollId) == RemoveVotesOf(a, pollId) + RemoveVotesOf(b, pollId)
  {
    if |b| > 0 {
      var init, v := b[..|b| - 1], b[|b| - 1];
      assert (a + b)[..|a + b| - 1] == a + init;
      assert (a + b)[|a + b| - 1] == v;
      RemoveVotesOfConcat(a, init, pollId);
    } else {
      assert a + b == a;
    }
  }

  /** Two kept votes appear in the same order in the original list. */
  lemma {:induction false} RemoveVotesOfOrder(votes: seq<Vote>, pollId: int, i: nat, j: nat)
    requires i < j < |RemoveVotesOf(votes, pollId)|
    ensures exists i', j' :: 0 <= i' < j' < |votes| && votes[i'] == RemoveVotesOf(votes, pollId)[i]
                                                  && votes[j'] == RemoveVotesOf(votes, pollId)[j]
  {
    var init, v := votes[..|votes| - 1], votes[|votes| - 1];
    var rest := RemoveVotesOf(init, pollId);
    var r := RemoveVotesOf(votes, pollId);
    assert r == rest + (if v.pollId != pollId then [v] else []);
    if j < |rest| {
      RemoveVotesOfOrder(init, pollId, i, j);
      var i', j' :| 0 <= i' < j' < |init| && init[i'] == rest[i] && init[j'] == rest[j];
      assert votes[i'] == r[i] && votes[j'] == r[j];
    } else {
      assert r[j] == v;
      assert rest[i] in rest;
      var i' :| 0 <= i' < |init| && init[i'] == rest[i];
      assert votes[i'] == r[i] && votes[|votes| - 1] == r[j];
    }
  }

  /** The vote handler. `optionId` is None when the body has none; it is
      falsy when absent or 0. `createdAt` is the clock reading. */
  function Cast(db: Db, userId: int, pollId: int, optionId: Option<int>, createdAt: int): (r: Result<Db>)
    ensures (optionId.None? || optionId.value == 0) ==> r == Err(InvalidInput)
    ensures optionId.Some? && optionId.value != 0 ==>
      match PollIndex(db.polls, pollId)
      case None => r == Err(NotFound)
      case Some(k) =>
        if !HasOption(db.polls[k].options, optionId.value) then r == Err(InvalidInput)
        else if exists j :: 0 <= j < |db.votes| && db.votes[j].pollId == pollId && db.votes[j].userId == userId
        then r == Err(Conflict)
        else r == Ok(db.(votes := db.votes + [Vote(NextId(VoteIds(db.votes)), pollId, optionId.value, userId, createdAt)]))
  {
    if optionId.None? || optionId.value == 0 then Err(InvalidInput)
    else match PollIndex(db.polls, pollId)
      case None => Err(NotFound)
      case Some(k) =>
        if !HasOption(db.polls[k].options, optionId.value) then Err(InvalidInput)
        else if UserVoteIndex(db.votes, pollId, userId).Some? then Err(Conflict)
        else Ok(db.(votes := db.votes + [Vote(NextId(VoteIds(db.votes)), pollId, optionId.value, userId, createdAt)]))
  }

  /** A successful vote adds one to the chosen option of its poll and
      changes no other count. */
  lemma CastCounts(db: Db, userId: int, pollId: int, optionId: Option<int>, createdAt: int,
                   q: int, o: int)
    requires Cast(db, userId, pollId, optionId, createdAt).Ok?
    ensures CountVotes(Cast(db, userId, pollId, optionId, createdAt).value.votes, q, o)
            == CountVotes(db.votes, q, o) + (if q == pollId && o == optionId.value then 1 else 0)
  {
  }

  /** The same, read through the tally of any option list. */
  lemma CastTally(db: Db, userId: int, pollId: int, optionId: Option<int>, createdAt: int,
                  options: seq<PollOption>, k: nat)
    requires Cast(db, userId, pollId, optionId, createdAt).Ok?
    requires k < |options|
    ensures Tally(options, Cast(db, userId, pollId, optionId, createdAt).value.votes, pollId)[k].votes
            == Tally(options, db.votes, pollId)[k].votes + (if options[k].id == optionId.value then 1 else 0)
  {
  }

  /** Only the first vote of a user in a poll is accepted: any later one, for
      any option, is refused, with Conflict when the option is valid. */
  lemma CastOnce(db: Db, userId: int, pollId: int, optionId: Option<int>, createdAt: int,
                 optionId2: Option<int>, createdAt2: int)
    requires Cast(db, userId, pollId, optionId, createdAt).Ok?
    ensures var db1 := Cast(db, userId, pollId, optionId, createdAt).value;
            var r := Cast(db1, userId, pollId, optionId2, createdAt2);
            && r.Err?
            && (optionId2.Some? && optionId2.value != 0 &&
                HasOption(db.polls[PollIndex(db.polls, pollId).value].options, optionId2.value)
                ==> r == Err(Conflict))
  {
    var db1 := Cast(db, userId, pollId, optionId, createdAt).value;
    var n := |db.votes|;
    assert db1.votes[n].pollId == pollId && db1.votes[n].userId == userId;
  }
}
