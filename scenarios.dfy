/** Concrete runs of the handlers on small snapshots: the lunch poll, the
    edit lock, the cascading delete, the duplicate username, and identifier
    assignment after deletions. */
module Scenarios {
  import opened Seqs
  import opened Snapshot
  import opened Identity
  import opened PollRegistry
  import opened BallotBox
  import opened PollEditing
  import opened PollService

  const AliceBob: Db := Db([User(1, "alice", "h1"), User(2, "bob", "h2")], [], [])

  const Lunch: Poll := Poll(1, 1, "Lunch", "", 100, [PollOption(1, "Pizza"), PollOption(2, "Sushi")])

  const LunchOpen: Db := AliceBob.(polls := [Lunch])

  const BobVoted: Db := LunchOpen.(votes := [Vote(1, 1, 2, 2, 200)])

  /** Alice and then Bob register and get ids 1 and 2. */
  lemma RegisterScenario()
    ensures Identity.Register(Empty, Some("alice"), Some("pw1"), "h1") == Ok(Db([User(1, "alice", "h1")], [], []))
    ensures Identity.Register(Db([User(1, "alice", "h1")], [], []), Some("bob"), Some("pw2"), "h2") == Ok(AliceBob)
  {
    assert NextId(UserIds([])) == 1;
    assert NextId(UserIds([User(1, "alice", "h1")])) == 2;
    assert UserByName([User(1, "alice", "h1")], "bob") == None;
    assert [User(1, "alice", "h1")] + [User(2, "bob", "h2")] == AliceBob.users;
  }

  /** Alice's poll gets id 1 and options 1 "Pizza" and 2 "Sushi", both at 0. */
  lemma CreateScenario()
    ensures PollRegistry.CreatePoll(AliceBob, 1, Some("Lunch"), None, Some(["Pizza", "Sushi"]), 100) == Ok(LunchOpen)
    ensures Detail(LunchOpen, 2, 1)
            == Ok(PollDetail(1, "Lunch", "", 100, "alice", [OptionTally(1, "Pizza", 0), OptionTally(2, "Sushi", 0)],
                             false, None))
  {
    assert NumberOptions(["Pizza", "Sushi"]) == Lunch.options;
    assert Tally(Lunch.options, [], 1) == [OptionTally(1, "Pizza", 0), OptionTally(2, "Sushi", 0)];
    assert PollIndex(LunchOpen.polls, 1) == Some(0);
    assert UserById(LunchOpen.users, 1) == Some(0);
    assert UserVoteIndex([], 1, 2) == None;
  }

  /** Bob votes for Sushi; voting again is refused, as are a bad option and a
      missing poll. */
  lemma VoteScenario()
    ensures Cast(LunchOpen, 2, 1, Some(2), 200) == Ok(BobVoted)
    ensures Tally(Lunch.options, BobVoted.votes, 1)[0] == OptionTally(1, "Pizza", 0)
    ensures Tally(Lunch.options, BobVoted.votes, 1)[1] == OptionTally(2, "Sushi", 1)
    ensures Cast(BobVoted, 2, 1, Some(2), 300) == Err(Conflict)
    ensures Cast(BobVoted, 2, 1, Some(3), 300) == Err(InvalidInput)
    ensures Cast(BobVoted, 2, 7, Some(1), 300) == Err(NotFound)
  {
    var t := Tally(Lunch.options, BobVoted.votes, 1);
    assert BobVoted.votes[..0] == [];
    assert CountVotes(BobVoted.votes, 1, 1) == 0 && CountVotes(BobVoted.votes, 1, 2) == 1;
    assert t[0] == OptionTally(1, "Pizza", 0);
    assert t[1] == OptionTally(2, "Sushi", 1);
    assert t == [OptionTally(1, "Pizza", 0), OptionTally(2, "Sushi", 1)];
    assert !HasOption(Lunch.options, 3);
    assert HasOption(Lunch.options, 2) by { assert Lunch.options[1].id == 2; }
    assert PollIndex(LunchOpen.polls, 1) == Some(0);
    assert PollIndex(BobVoted.polls, 7) == None;
    assert UserVoteIndex([], 1, 2) == None;
    assert NextId(VoteIds([])) == 1;
    assert LunchOpen.polls[0] == Lunch && LunchOpen.votes == [];
    assert LunchOpen.(votes := LunchOpen.votes + [Vote(1, 1, 2, 2, 200)]) == BobVoted;
    assert BobVoted.votes[0].pollId == 1 && BobVoted.votes[0].userId == 2;
  }

  /** The owner may not retitle the poll once Bob has voted; before any vote
      the owner may, and an empty description keeps the current one. */
  lemma EditLockScenario()
    ensures PollEditing.UpdatePoll(BobVoted, 1, 1, Some("Dinner"), None) == Err(Locked)
    ensures PollEditing.UpdatePoll(BobVoted, 2, 1, Some("Dinner"), None) == Err(Forbidden)
    ensures PollEditing.UpdatePoll(LunchOpen, 1, 1, Some("Dinner"), Some(""))
            == Ok(AliceBob.(polls := [Lunch.(title := "Dinner")]))
    ensures PollEditing.UpdatePoll(AliceBob.(polls := [Lunch.(description := "Friday")]), 1, 1, None, Some(""))
            == Ok(AliceBob.(polls := [Lunch.(description := "Friday")]))
  {
    assert PollIndex(LunchOpen.polls, 1) == Some(0);
    assert PollIndex(BobVoted.polls, 1) == Some(0);
    assert BobVoted.votes[0].pollId == 1;
    assert !HasVotes(LunchOpen.votes, 1);
    assert Keep(Some("Dinner"), "Lunch") == "Dinner" && Keep(Some(""), "") == "";
    assert LunchOpen.polls[0 := Lunch.(title := "Dinner")] == [Lunch.(title := "Dinner")];
    var friday := Lunch.(description := "Friday");
    assert PollIndex([friday], 1) == Some(0);
    assert Keep(None, "Lunch") == "Lunch" && Keep(Some(""), "Friday") == "Friday";
    assert [friday][0 := friday.(title := "Lunch", description := "Friday")] == [friday];
  }

  /** Deleting the poll takes Bob's vote with it. */
  lemma DeleteScenario()
    ensures PollEditing.DeletePoll(BobVoted, 2, 1) == Err(Forbidden)
    ensures PollEditing.DeletePoll(BobVoted, 1, 1) == Ok(AliceBob)
    ensures Detail(AliceBob, 2, 1) == Err(NotFound)
    ensures ListPolls(AliceBob) == []
  {
    assert PollIndex(BobVoted.polls, 1) == Some(0);
    assert BobVoted.polls[..0] + BobVoted.polls[1..] == [];
    assert RemoveVotesOf(BobVoted.votes, 1) == [];
    assert PollIndex(AliceBob.polls, 1) == None;
  }

  /** A username is taken once. */
  lemma DuplicateUsernameScenario()
    ensures Identity.Register(AliceBob, Some("alice"), Some("other"), "h3") == Err(Conflict)
    ensures Identity.Register(AliceBob, Some("carol"), None, "h3") == Err(InvalidInput)
  {
  }

  function Plain(id: int, createdAt: int): Poll {
    Poll(id, 1, "t", "", createdAt, [])
  }

  /** With polls 1, 2 and 3 stored, deleting 2 leaves the next id at 4; but
      deleting 3, the largest, makes 3 the next id again. */
  lemma IdAfterDeleteScenario()
    ensures var db := AliceBob.(polls := [Plain(1, 10), Plain(2, 20), Plain(3, 30)]);
            && PollEditing.DeletePoll(db, 1, 2).Ok?
            && NextId(PollIds(PollEditing.DeletePoll(db, 1, 2).value.polls)) == 4
            && PollEditing.DeletePoll(db, 1, 3).Ok?
            && NextId(PollIds(PollEditing.DeletePoll(db, 1, 3).value.polls)) == 3
  {
  }

  lemma ListOrderMiddle()
    ensures NewestFirst([Plain(2, 30), Plain(3, 10), Plain(4, 20)]) == [Plain(2, 30), Plain(4, 20), Plain(3, 10)]
  {
  }

  lemma ListOrderInsert()
    ensures InsertNewest(Plain(1, 10), [Plain(2, 30), Plain(4, 20), Plain(3, 10)])
            == [Plain(2, 30), Plain(4, 20), Plain(1, 10), Plain(3, 10)]
  {
  }

  /** Polls are listed newest first, and equal times keep storage order. */
  lemma ListOrderScenario()
    ensures NewestFirst([Plain(1, 10), Plain(2, 30), Plain(3, 10), Plain(4, 20)])
            == [Plain(2, 30), Plain(4, 20), Plain(1, 10), Plain(3, 10)]
  {
    ListOrderMiddle();
    ListOrderInsert();
  }
}
