/** The in-memory snapshot `{users, polls, votes}` every handler works on,
    the error kinds a handler answers with, and identifier assignment. */
module Snapshot {
  import opened Seqs

  datatype User = User(id: int, username: string, passwordHash: string)

  datatype PollOption = PollOption(id: int, text: string)

  datatype Poll = Poll(id: int, ownerId: int, title: string, description: string,
                       createdAt: int, options: seq<PollOption>)

  datatype Vote = Vote(id: int, pollId: int, optionId: int, userId: int, createdAt: int)

  datatype Db = Db(users: seq<User>, polls: seq<Poll>, votes: seq<Vote>)

  /** The snapshot written on first use. */
  const Empty: Db := Db([], [], [])

  /** Refusals, before any change is made. HTTP statuses: 400, 403, 404,
      409, and 400 again for an edit after votes. */
  datatype Error = InvalidInput | Forbidden | NotFound | Conflict | Locked

  datatype Result<+T> = Ok(value: T) | Err(error: Error)

  /** The new snapshot a handler would commit, given what it answered. */
  function Committed<T>(r: Result<T>, db: Db): Result<Db> {
    if r.Ok? then Ok(db) else Err(r.error)
  }

  /** A request-body string field as JavaScript tests it: absent (None) or
      empty is falsy. */
  predicate Truthy(field: Option<string>)
    ensures Truthy(field) ==> field.Some?
    ensures field == None || field == Some("") ==> !Truthy(field)
    ensures field.Some? && |field.value| > 0 ==> Truthy(field)
  {
    field.Some? && field.value != ""
  }

  /** The ids of a collection's records, in stored order. */
  function Ids<T>(s: seq<T>, id: T -> int): (ids: seq<int>)
    ensures |ids| == |s| && forall i :: 0 <= i < |s| ==> ids[i] == id(s[i])
  {
    seq(|s|, i requires 0 <= i < |s| => id(s[i]))
  }

  function UserIds(users: seq<User>): seq<int> {
    Ids(users, (u: User) => u.id)
  }

  function PollIds(polls: seq<Poll>): seq<int> {
    Ids(polls, (p: Poll) => p.id)
  }

  function VoteIds(votes: seq<Vote>): seq<int> {
    Ids(votes, (v: Vote) => v.id)
  }

  /** The largest of a non-empty list of ids. */
  function MaxId(ids: seq<int>): (m: int)
    requires |ids| > 0
    ensures m in ids
    ensures forall i :: 0 <= i < |ids| ==> ids[i] <= m
  {
    if |ids| == 1 then ids[0]
    else
      var rest := MaxId(ids[1..]);
      if ids[0] >= rest then ids[0] else rest
  }

  /** One more than the largest id present, 1 for an empty collection. Every
      stored id is a number, so the fallback to 0 for a missing id never applies. */
  function NextId(ids: seq<int>): (r: int)
    ensures |ids| == 0 ==> r == 1
    ensures forall i :: 0 <= i < |ids| ==> ids[i] < r
    ensures |ids| > 0 ==> r - 1 in ids
  {
    if |ids| == 0 then 1 else MaxId(ids) + 1
  }
}
