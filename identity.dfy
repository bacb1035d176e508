/** The users collection: lookups, owner-name resolution and registration
    (Server/server.js, the register handler and the owner lookups of the
    list and detail handlers). */
module Identity {
  import opened Seqs
  import opened Snapshot

  /** The position of a user with exactly this username (case-sensitive), if any. */
  function UserByName(users: seq<User>, name: string): (r: Option<nat>)
    ensures r.Some? ==> r.value < |users| && users[r.value].username == name
    ensures r.None? <==> forall j :: 0 <= j < |users| ==> users[j].username != name
  {
    FindIndex(users, (u: User) => u.username == name)
  }

  /** The position of the first user with the id, if any. */
  function UserById(users: seq<User>, id: int): (r: Option<nat>)
    ensures r.Some? ==> r.value < |users| && users[r.value].id == id
    ensures r.Some? ==> forall j :: 0 <= j < r.value ==> users[j].id != id
    ensures r.None? <==> forall j :: 0 <= j < |users| ==> users[j].id != id
  {
    FindIndex(users, (u: User) => u.id == id)
  }

  const Unknown: string := "unknown"

  /** The display name of a poll's owner: the username of the first user with
      that id, or "unknown" when there is none or its username is empty. */
  function OwnerName(users: seq<User>, ownerId: int): (name: string)
    ensures name != ""
    ensures (forall j :: 0 <= j < |users| ==> users[j].id != ownerId) ==> name == Unknown
    ensures name == Unknown || exists i :: 0 <= i < |users| && users[i].id == ownerId && users[i].username == name
    ensures forall k :: 0 <= k < |users| && users[k].id == ownerId && users[k].username != ""
                        && (forall j :: 0 <= j < k ==> users[j].id != ownerId)
                        ==> name == users[k].username
    ensures UserById(users, ownerId).Some? && users[UserById(users, ownerId).value].username == "" ==> name == Unknown
  {
    match UserById(users, ownerId)
    case None => Unknown
    case Some(i) => if users[i].username != "" then users[i].username else Unknown
  }

  /** The register handler. `passwordHash` stands for the hash the external
      hashing library computes from `password`; it is stored unread. */
  function Register(db: Db, username: Option<string>, password: Option<string>,
                    passwordHash: string): (r: Result<Db>)
    ensures !Truthy(username) || !Truthy(password) ==> r == Err(InvalidInput)
    ensures Truthy(username) && Truthy(password) ==>
              (r == Err(Conflict) <==> exists j :: 0 <= j < |db.users| && db.users[j].username == username.value)
    ensures r.Err? ==> r.error == InvalidInput || r.error == Conflict
    ensures r.Ok? <==> Truthy(username) && Truthy(password)
                       && forall j :: 0 <= j < |db.users| ==> db.users[j].username != username.value
    ensures r.Ok? ==> r.value.polls == db.polls && r.value.votes == db.votes
    ensures r.Ok? ==> |r.value.users| == |db.users| + 1 && r.value.users[..|db.users|] == db.users
    ensures r.Ok? ==> r.value.users[|db.users|] == User(NextId(UserIds(db.users)), username.value, passwordHash)
  {
    if !Truthy(username) || !Truthy(password) then Err(InvalidInput)
    else if UserByName(db.users, username.value).Some? then Err(Conflict)
    else Ok(db.(users := db.users + [User(NextId(UserIds(db.users)), username.value, passwordHash)]))
  }

  /** Once registered, a username is refused a second time, with any password. */
  lemma RegisterTwiceRefused(db: Db, username: Option<string>, password: Option<string>, hash: string,
                             password2: Option<string>, hash2: string)
    requires Register(db, username, password, hash).Ok?
    ensures var db1 := Register(db, username, password, hash).value;
            Register(db1, username, password2, hash2) ==
              if Truthy(password2) then Err(Conflict) else Err(InvalidInput)
  {
  }

  /** A newly registered user's id resolves to its username. */
  lemma RegisteredOwnerName(db: Db, username: Option<string>, password: Option<string>, hash: string)
    requires Register(db, username, password, hash).Ok?
    ensures var db1 := Register(db, username, password, hash).value;
            OwnerName(db1.users, NextId(UserIds(db.users))) == username.value
  {
  }
}
