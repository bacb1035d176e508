/** The polls collection: lookups, creation with numbered options, and the
    newest-first listing (Server/server.js, the create and list handlers). */
module PollRegistry {
  import opened Seqs
  import opened Snapshot
  import Identity

  /** The position of the first poll with the id, if any; the poll found is the
      one at that position. */
  function PollIndex(polls: seq<Poll>, id: int): (r: Option<nat>)
    ensures r.Some? ==> r.value < |polls| && polls[r.value].id == id
    ensures r.Some? ==> forall j :: 0 <= j < r.value ==> polls[j].id != id
    ensures r.None? <==> forall j :: 0 <= j < |polls| ==> polls[j].id != id
  {
    FindIndex(polls, (p: Poll) => p.id == id)
  }

  /** Whether some option of the poll carries the id. */
  predicate HasOption(options: seq<PollOption>, optionId: int)
    ensures HasOption(options, optionId) <==> exists k :: 0 <= k < |options| && options[k].id == optionId
  {
    var r := FindIndex(options, (o: PollOption) => o.id == optionId);
    assert r.Some? ==> options[r.value].id == optionId;
    r.Some?
  }

  /** Option ids are 1..N in order. */
  predicate Numbered(options: seq<PollOption>)
  {
    forall k :: 0 <= k < |options| ==> options[k].id == k + 1
  }

  /** In a numbered option list the valid option ids are exactly 1..N. */
  lemma NumberedOptionIds(options: seq<PollOption>, optionId: int)
    requires Numbered(options)
    ensures HasOption(options, optionId) <==> 1 <= optionId <= |options|
  {
    if 1 <= optionId <= |options| {
      assert options[optionId - 1].id == optionId;
    }
  }

  /** The option texts as options, the k-th (from 0) with id k + 1. */
  function NumberOptions(texts: seq<string>): (r: seq<PollOption>)
    ensures |r| == |texts| && Numbered(r)
    ensures forall k :: 0 <= k < |r| ==> r[k].text == texts[k]
  {
    seq(|texts|, k requires 0 <= k < |texts| => PollOption(k + 1, texts[k]))
  }

  /** The create-poll handler. `options` is None when the body's `options` is
      not an array; `createdAt` is the clock reading taken by the handler. */
  function CreatePoll(db: Db, ownerId: int, title: Option<string>, description: Option<string>,
                      options: Option<seq<string>>, createdAt: int): (r: Result<Db>)
    ensures r.Err? <==> !Truthy(title) || options.None? || |options.value| < 2
    ensures r.Err? ==> r.error == InvalidInput
    ensures r.Ok? ==> r.value.users == db.users && r.value.votes == db.votes
    ensures r.Ok? ==> |r.value.polls| == |db.polls| + 1 && r.value.polls[..|db.polls|] == db.polls
    ensures r.Ok? ==>
      var p := r.value.polls[|db.polls|];
      && p.id == NextId(PollIds(db.polls))
      && p.ownerId == ownerId
      && p.title == title.value
      && p.description == (if description.Some? then description.value else "")
      && p.createdAt == createdAt
      && |p.options| == |options.value|
      && forall k :: 0 <= k < |p.options| ==> p.options[k] == PollOption(k + 1, options.value[k])
  {
    if !Truthy(title) || options.None? || |options.value| < 2 then Err(InvalidInput)
    else
      var p := Poll(NextId(PollIds(db.polls)), ownerId, title.value,
                    if description.Some? then description.value else "",
                    createdAt, NumberOptions(options.value));
      Ok(db.(polls := db.polls + [p]))
  }

  // ---- Listing: a copy of the polls, stably sorted by creation time, newest first

  predicate NewestFirstOrder(s: seq<Poll>)
  {
    forall i, j :: 0 <= i < j < |s| ==> s[i].createdAt >= s[j].createdAt
  }

  /** Places `p` after the polls strictly newer than it and before the rest. */
  function InsertNewest(p: Poll, sorted: seq<Poll>): seq<Poll>
  {
    if |sorted| == 0 then [p]
    else if sorted[0].createdAt <= p.createdAt then [p] + sorted
    else [sorted[0]] + InsertNewest(p, sorted[1..])
  }

  lemma {:induction false} InsertNewestPermutes(p: Poll, sorted: seq<Poll>)
    ensures multiset(InsertNewest(p, sorted)) == multiset(sorted) + multiset{p}
  {
    if |sorted| > 0 && sorted[0].createdAt > p.createdAt {
      assert sorted == [sorted[0]] + sorted[1..];
      InsertNewestPermutes(p, sorted[1..]);
    }
  }

  lemma {:induction false} InsertNewestBound(p: Poll, sorted: seq<Poll>, bound: int)
    requires p.createdAt <= bound
    requires forall i :: 0 <= i < |sorted| ==> sorted[i].createdAt <= bound
    ensures forall i :: 0 <= i < |InsertNewest(p, sorted)| ==> InsertNewest(p, sorted)[i].createdAt <= bound
  {
    if |sorted| > 0 && sorted[0].createdAt > p.createdAt {
      InsertNewestBound(p, sorted[1..], bound);
    }
  }

  lemma {:induction false} InsertNewestOrdered(p: Poll, sorted: seq<Poll>)
    requires NewestFirstOrder(sorted)
    ensures NewestFirstOrder(InsertNewest(p, sorted))
  {
    if |sorted| == 0 {
    } else if sorted[0].createdAt <= p.createdAt {
      var r := [p] + sorted;
      forall i, j | 0 <= i < j < |r| ensures r[i].createdAt >= r[j].createdAt {
        assert r[j] == sorted[j - 1];
        if i > 0 { assert r[i] == sorted[i - 1]; }
        else if j > 1 { assert sorted[0].createdAt >= sorted[j - 1].createdAt; }
      }
    } else {
      var tail := sorted[1..];
      var rest := InsertNewest(p, tail);
      InsertNewestOrdered(p, tail);
      InsertNewestBound(p, tail, sorted[0].createdAt);
      var r := [sorted[0]] + rest;
      assert r == InsertNewest(p, sorted);
      forall i, j | 0 <= i < j < |r| ensures r[i].createdAt >= r[j].createdAt {
        assert r[j] == rest[j - 1];
        if i > 0 { assert r[i] == rest[i - 1]; }
      }
    }
  }

  /** A stable sort, newest first; the storage array is not touched. */
  function NewestFirst(polls: seq<Poll>): (r: seq<Poll>)
    ensures multiset(r) == multiset(polls)
    ensures NewestFirstOrder(r)
  {
    if |polls| == 0 then []
    else
      assert polls == [polls[0]] + polls[1..];
      InsertNewestOrdered(polls[0], NewestFirst(polls[1..]));
      InsertNewestPermutes(polls[0], NewestFirst(polls[1..]));
      InsertNewest(polls[0], NewestFirst(polls[1..]))
  }

  /** The polls created at time `t`, in the order of `s`. */
  function AtTime(s: seq<Poll>, t: int): seq<Poll>
  {
    if |s| == 0 then [] else (if s[0].createdAt == t then [s[0]] else []) + AtTime(s[1..], t)
  }

  lemma AtTimeCons(x: Poll, s: seq<Poll>, t: int)
    ensures AtTime([x] + s, t) == (if x.createdAt == t then [x] else []) + AtTime(s, t)
  {
  }

  lemma {:induction false} InsertNewestAtTime(p: Poll, sorted: seq<Poll>, t: int)
    ensures AtTime(InsertNewest(p, sorted), t) == AtTime([p] + sorted, t)
  {
    if |sorted| > 0 && sorted[0].createdAt > p.createdAt {
      var s0, tail := sorted[0], sorted[1..];
      assert sorted == [s0] + tail;
      var rest := InsertNewest(p, tail);
      assert InsertNewest(p, sorted) == [s0] + rest;
      InsertNewestAtTime(p, tail, t);
      AtTimeCons(s0, rest, t);
      AtTimeCons(p, tail, t);
      AtTimeCons(p, sorted, t);
      AtTimeCons(s0, tail, t);
    }
  }

  /** Stability: polls with equal creation times keep their storage order. */
  lemma {:induction false} NewestFirstStable(polls: seq<Poll>, t: int)
    ensures AtTime(NewestFirst(polls), t) == AtTime(polls, t)
  {
    if |polls| > 0 {
      NewestFirstStable(polls[1..], t);
      InsertNewestAtTime(polls[0], NewestFirst(polls[1..]), t);
      assert ([polls[0]] + NewestFirst(polls[1..]))[1..] == NewestFirst(polls[1..]);
    }
  }

  datatype PollSummary = PollSummary(id: int, title: string, description: string,
                                     createdAt: int, owner: string)

  /** A poll as the list shows it: its own fields and its owner's display name. */
  function Summarize(users: seq<User>, p: Poll): (r: PollSummary)
    ensures r.id == p.id && r.title == p.title && r.description == p.description && r.createdAt == p.createdAt
    ensures Identity.UserById(users, p.ownerId).None? ==> r.owner == Identity.Unknown
    ensures var i := Identity.UserById(users, p.ownerId);
            i.Some? && users[i.value].username != "" ==> r.owner == users[i.value].username
    ensures var i := Identity.UserById(users, p.ownerId);
            i.Some? && users[i.value].username == "" ==> r.owner == Identity.Unknown
  {
    PollSummary(p.id, p.title, p.description, p.createdAt, Identity.OwnerName(users, p.ownerId))
  }

  /** Sorting neither adds nor drops a poll. */
  lemma NewestFirstMembers(polls: seq<Poll>)
    ensures |NewestFirst(polls)| == |polls|
    ensures forall i :: 0 <= i < |polls| ==> polls[i] in NewestFirst(polls)
    ensures forall x :: x in NewestFirst(polls) ==> x in polls
  {
    var sorted := NewestFirst(polls);
    assert |sorted| == |multiset(sorted)| == |multiset(polls)| == |polls|;
    forall i | 0 <= i < |polls| ensures polls[i] in sorted {
      assert polls[i] in multiset(polls);
    }
    forall x | x in sorted ensures x in polls {
      assert x in multiset(sorted);
    }
  }

  /** The list handler: one summary per stored poll, newest first. */
  function ListPolls(db: Db): (r: seq<PollSummary>)
    ensures |r| == |db.polls|
    ensures forall i, j :: 0 <= i < j < |r| ==> r[i].createdAt >= r[j].createdAt
  {
    var sorted := NewestFirst(db.polls);
    NewestFirstMembers(db.polls);
    seq(|sorted|, k requires 0 <= k < |sorted| => Summarize(db.users, sorted[k]))
  }

  /** The summaries listed are those of the stored polls in newest-first order. */
  lemma ListPollsAt(db: Db, k: nat)
    requires k < |ListPolls(db)|
    ensures |NewestFirst(db.polls)| == |db.polls|
    ensures ListPolls(db)[k] == Summarize(db.users, NewestFirst(db.polls)[k])
  {
  }

  /** Every stored poll is listed. */
  lemma ListPollsComplete(db: Db, i: nat)
    requires i < |db.polls|
    ensures exists k :: 0 <= k < |ListPolls(db)| && ListPolls(db)[k] == Summarize(db.users, db.polls[i])
  {
    var sorted := NewestFirst(db.polls);
    NewestFirstMembers(db.polls);
    var k :| 0 <= k < |sorted| && sorted[k] == db.polls[i];
    ListPollsAt(db, k);
  }

  /** Only stored polls are listed. */
  lemma ListPollsSound(db: Db, k: nat)
    requires k < |ListPolls(db)|
    ensures exists i :: 0 <= i < |db.polls| && ListPolls(db)[k] == Summarize(db.users, db.polls[i])
  {
    var sorted := NewestFirst(db.polls);
    NewestFirstMembers(db.polls);
    ListPollsAt(db, k);
    assert sorted[k] in sorted;
    var i :| 0 <= i < |db.polls| && db.polls[i] == sorted[k];
  }
}
