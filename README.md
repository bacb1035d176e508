# Poll application server: a verified model of its poll and vote logic

The server keeps one snapshot `{users, polls, votes}`. Each route handler
loads it, checks the request, changes the snapshot and writes it back. This
project models those handlers as operations on that snapshot:

- registering a user;
- creating a poll, with option ids 1..N in input order;
- listing polls newest first, with the owner's name;
- reading a poll with its per-option tally and the caller's vote;
- casting a vote;
- the owner-only edit and delete.

The model has two layers:

- Every handler is a pure function `Op(db, ...): Result<Db>`. A refusal
  (`Err(InvalidInput | Forbidden | NotFound | Conflict | Locked)`) never carries
  a new snapshot. Listing and reading a poll are pure functions too.
- `PollService.Store` holds the three lists as `seq` fields. Its methods make
  the checks in the handler's order and then change the fields in place: an
  append, a field assignment at the poll's index, a splice and a filter. Each
  method states its answer and new state by equating them to the pure
  function: `Op(old(State()), ...) == Committed(r, State())`. Each also
  promises `old(Valid()) ==> Valid()`.

`Consistency.Consistent` is the invariant. It says:

- user, poll and vote ids are unique;
- usernames are unique;
- every poll's options are numbered 1..N;
- there is at most one vote per (poll, user);
- every vote names an existing poll and one of its option ids.

Every handler is proved to preserve it. The empty first-use snapshot
satisfies it.

Inputs that the server takes from outside are parameters:

- the authenticated caller's id;
- the clock reading (`createdAt`);
- the password hash computed by the hashing library.

Request-body fields are `Option` values, with `None` for an omitted field. A
string field is falsy when it is omitted or empty, and `optionId` is falsy when
it is omitted or 0.

## Behaviour worth noting

- Ids are the largest stored id plus one. Deleting the poll with the largest
  id therefore frees that id, and the next poll created gets it again. While a
  larger id remains, a deleted id is not handed out again.
  `Scenarios.IdAfterDeleteScenario` shows both cases.
- An edit after votes have been cast is refused with HTTP 400, the same status
  as invalid input. The model calls this refusal `Locked`. A non-owner is
  refused with `Forbidden` before the vote check, so only the owner ever
  receives `Locked`.
- Registration refuses an empty password as well as an empty username.
- The vote handler checks that `optionId` is present before it looks up the
  poll. A missing `optionId` is therefore `InvalidInput` even when the poll
  does not exist.

## Model

| member | source | states |
|---|---|---|
| Seqs.FindIndex | Server/server.js:168 | the index found is the first whose element satisfies the predicate; None only when no element does |
| Snapshot.Truthy | Server/server.js:66 | an omitted field and the empty string are falsy; a present non-empty string is truthy |
| Snapshot.Ids | Server/server.js:39 | one id per record, in stored order, each the record's own id |
| Snapshot.MaxId | Server/server.js:39 | the maximum is one of the ids and no id exceeds it |
| Snapshot.NextId | Server/server.js:37-40 | 1 for an empty collection; otherwise greater than every id, and one more than an id present |
| Identity.UserByName | Server/server.js:68 | finds a user with exactly that username; None exactly when no user has it |
| Identity.UserById | Server/server.js:109 | finds the first user with the id; None exactly when no user has it |
| Identity.OwnerName | Server/server.js:121 | never empty; "unknown" when no user has the id; otherwise the first such user's username, or "unknown" when that username is empty |
| Identity.Register | Server/server.js:64-75 | InvalidInput when username or password is falsy; Conflict exactly when the username exists; success exactly when both are truthy and no user has the username; on success exactly one user is appended, with id NextId, and nothing else changes |
| Identity.RegisterTwiceRefused | Server/server.js:68-69 | a registered username is refused again: Conflict with a password, InvalidInput without |
| Identity.RegisteredOwnerName | Server/server.js:71-72 | the new user's id resolves to the new username |
| PollRegistry.PollIndex | Server/server.js:168 | the first poll with the id; None exactly when there is none |
| PollRegistry.HasOption | Server/server.js:133 | the option lookup succeeds exactly when some option has that id |
| PollRegistry.NumberedOptionIds | Server/server.js:100 | in options numbered 1..N, the valid option ids are exactly 1..N |
| PollRegistry.NumberOptions | Server/server.js:100 | one option per text, ids 1..N in input order, texts preserved |
| PollRegistry.CreatePoll | Server/server.js:95-104 | InvalidInput exactly when the title is falsy, options is not an array or has fewer than 2 entries; on success one poll is appended with id NextId, the caller as owner, the description defaulting to "", the given time, and options (k+1, text k) |
| PollRegistry.InsertNewestPermutes | Server/server.js:109 | inserting adds exactly the one poll |
| PollRegistry.InsertNewestBound | Server/server.js:109 | inserting introduces no time above a common bound |
| PollRegistry.InsertNewestOrdered | Server/server.js:109 | inserting into a newest-first list keeps it newest first |
| PollRegistry.NewestFirst | Server/server.js:109 | the result is a permutation of the polls and is ordered by creation time, descending |
| PollRegistry.InsertNewestAtTime | Server/server.js:109 | an inserted poll precedes every poll with the same time |
| PollRegistry.NewestFirstStable | Server/server.js:109 | the sort is stable: for every time, the polls with that time appear in storage order |
| PollRegistry.NewestFirstMembers | Server/server.js:109 | sorting keeps the length and the set of polls |
| PollRegistry.Summarize | Server/server.js:109 | a listed poll keeps its id, title, description and time; its owner is "unknown" when no user has the owner id, otherwise the first such user's username, or "unknown" when that username is empty |
| PollRegistry.ListPolls | Server/server.js:107-111 | one summary per stored poll, ordered by creation time descending |
| PollRegistry.ListPollsAt | Server/server.js:109 | the k-th summary is that of the k-th poll in newest-first order |
| PollRegistry.ListPollsComplete | Server/server.js:109 | every stored poll's summary, with its resolved owner name, is listed |
| PollRegistry.ListPollsSound | Server/server.js:109 | every listed summary is that of a stored poll |
| BallotBox.CountVotes | Server/server.js:119 | at most the poll's vote count; zero exactly when no vote names both the poll and the option |
| BallotBox.Tally | Server/server.js:119 | one entry per option, in order, with the option's id and text and the count of votes with that poll id and option id |
| BallotBox.OptionCountOne | Server/server.js:133 | with distinct option ids, an id names one option or none |
| BallotBox.TallyTotalNoVotes | Server/server.js:119 | with no votes, every option counts zero |
| BallotBox.TallyTotalStep | Server/server.js:141-144 | one more vote raises the tally total by the number of options with its id |
| BallotBox.TallyTotalIsPollVoteCount | Server/server.js:119 | the per-option counts add up to the number of votes in the poll, when option ids are distinct and every vote names one of them |
| BallotBox.UserVoteIndex | Server/server.js:137 | the first vote of the user in the poll; None exactly when the user has not voted in it |
| BallotBox.HasVotes | Server/server.js:156 | true exactly when some vote names the poll |
| BallotBox.RemoveVotesOf | Server/server.js:174 | keeps exactly the votes of other polls; the number removed is the poll's vote count |
| BallotBox.RemoveVotesOfConcat | Server/server.js:174 | the filter works piecewise over concatenation |
| BallotBox.RemoveVotesOfOrder | Server/server.js:174 | two kept votes appear in the original list in the same order |
| BallotBox.Cast | Server/server.js:126-146 | InvalidInput for a falsy optionId; then NotFound without the poll; InvalidInput for an option not in the poll; Conflict when the user already voted in it; otherwise exactly one vote is appended, with id NextId, and nothing else changes |
| BallotBox.CastCounts | Server/server.js:141 | a successful vote adds one to the count of its poll and option and changes no other count |
| BallotBox.CastTally | Server/server.js:144 | the returned tally rises by one at the chosen option and is unchanged elsewhere |
| BallotBox.CastOnce | Server/server.js:137-138 | after a user's vote in a poll, every later vote by that user in that poll is refused, with Conflict for a valid option |
| PollEditing.Keep | Server/server.js:158-159 | a truthy replacement is taken; an omitted or empty one keeps the current value |
| PollEditing.UpdatePoll | Server/server.js:149-162 | NotFound without the poll; Forbidden exactly for a non-owner; Locked exactly for the owner when a vote names the poll; on success only that poll's title and description change, each only when the new value is truthy |
| PollEditing.UpdateLockedAfterVote | Server/server.js:155-157 | once a poll has a vote no caller can edit it, and the owner gets Locked |
| PollEditing.DeletePoll | Server/server.js:165-177 | NotFound without the poll; Forbidden exactly for a non-owner; on success the first poll with the id is spliced out, the others keep their order, the poll's votes are filtered out and the users are unchanged |
| PollEditing.DeleteCascades | Server/server.js:172-174 | after deletion no vote names the poll and every vote of another poll remains |
| PollEditing.NoVotesCountZero | Server/server.js:174 | a list with no vote for the poll counts zero for it |
| Consistency.EmptyConsistent | Server/server.js:21 | the first-use snapshot satisfies the invariant |
| Consistency.RegisterPreserves | Server/server.js:66-72 | registration keeps user ids and usernames unique |
| Consistency.CreatePollPreserves | Server/server.js:97-101 | creation keeps poll ids unique and options numbered, and existing votes still fit |
| Consistency.CastPreserves | Server/server.js:129-141 | a vote keeps vote ids unique, at most one vote per (poll, user), and every vote on an option of its poll |
| Consistency.UpdatePollPreserves | Server/server.js:153-159 | editing text changes no id or option, so the invariant holds |
| Consistency.RemoveAtShifts | Server/server.js:172 | the splice shifts the later polls down by one |
| Consistency.RemoveVotesKeepsPairwise | Server/server.js:174 | the filter keeps vote ids unique and one vote per (poll, user) |
| Consistency.RemoveKeepsFit | Server/server.js:172-174 | after the splice and the filter every vote still names a stored poll and one of its options |
| Consistency.DeletePollPreserves | Server/server.js:168-174 | deletion preserves the invariant and leaves no orphan vote |
| Consistency.TallyTotalInConsistent | Server/server.js:119 | in a consistent snapshot a poll's tallies add up to its vote count |
| Consistency.DeletedPollGone | Server/server.js:168-172 | with unique poll ids, a deleted poll is no longer found |
| Consistency.DeletedIdNotReissued | Server/server.js:37-40 | after a deletion the next poll id exceeds the deleted one while a larger id remains |
| PollService.Detail | Server/server.js:114-123 | NotFound exactly without the poll; otherwise the poll's fields, resolved owner, tally; voted exactly when the caller has a vote in the poll, and votedOptionId is the option of the caller's first vote in it, else None |
| PollService.VoteShownInDetail | Server/server.js:120-122 | after a successful vote the voter's detail says voted with that option, where before it did not, and the chosen option's count is one higher |
| PollService.Store.constructor | Server/server.js:21 | the store starts as the empty snapshot and is consistent |
| PollService.Store.Register | Server/server.js:64-75 | answers and changes the store as Identity.Register, by appending to users; keeps the invariant |
| PollService.Store.CreatePoll | Server/server.js:95-104 | answers the new poll id and changes the store as PollRegistry.CreatePoll, by appending to polls; keeps the invariant |
| PollService.Store.CastVote | Server/server.js:126-146 | changes the store as BallotBox.Cast by appending to votes, answers the poll's new tally; keeps the invariant, and from a consistent store the answered tally adds up to the poll's vote count |
| PollService.Store.UpdatePoll | Server/server.js:149-162 | assigns title and description in place as PollEditing.UpdatePoll; keeps the invariant |
| PollService.Store.DeletePoll | Server/server.js:165-177 | splices the poll out and filters its votes as PollEditing.DeletePoll; keeps the invariant |
| Scenarios.RegisterScenario | Server/server.js:64-75 | alice and bob register with ids 1 and 2 |
| Scenarios.CreateScenario | Server/server.js:95-123 | alice's poll "Lunch" gets id 1 and options 1 Pizza and 2 Sushi, each at 0 votes |
| Scenarios.VoteScenario | Server/server.js:126-146 | bob's vote for option 2 gives tallies 0 and 1; a second vote is Conflict, a bad option InvalidInput, a missing poll NotFound |
| Scenarios.EditLockScenario | Server/server.js:149-162 | after bob's vote alice's retitle is Locked and bob's Forbidden; before any vote the retitle succeeds, and an empty description leaves a non-empty one (Friday) as it was |
| Scenarios.DeleteScenario | Server/server.js:165-177 | alice deletes the poll with bob's vote; the poll is then not found and not listed |
| Scenarios.DuplicateUsernameScenario | Server/server.js:66-69 | registering alice again is Conflict; no password is InvalidInput |
| Scenarios.IdAfterDeleteScenario | Server/server.js:37-40 | with polls 1, 2, 3: deleting 2 leaves the next id at 4, deleting 3 makes the next id 3 |
| Scenarios.ListOrderScenario | Server/server.js:109 | times 10, 30, 10, 20 list as 30, 20, then the two 10s in storage order |

## Left out

- Reading and writing the snapshot file (`loadDb`, `saveDb`, Server/server.js:18-35) is file I/O. The empty first-use snapshot is modelled; the fallback to an empty snapshot on a corrupt file is not.
- Token checking and login (Server/server.js:42-57, 78-92) call the signing and hashing libraries. The authenticated caller id is a parameter, and the password hash is an opaque string parameter. The token's user lookup that answers 401 and the profile route are not modelled, so the model has no `Unauthorized` error.
- `Date.now()` becomes the `createdAt` parameter.
- Express routing, CORS, HTTP status codes and JSON body parsing are not modelled. `Number(req.params.id)` is taken to be an integer, so NaN ids are not modelled. Body values are strings or integers: a string `optionId`, which strict equality would reject, is not modelled.
- Concurrent requests are not modelled; each handler runs to completion alone, so the lost update between interleaved load and save is not captured.
- The React client (pollClient/src/App.jsx, pollClient/src/components/Login.jsx) is UI code. Its trimming and filtering of option texts is client-side validation, not a guarantee of the server.
