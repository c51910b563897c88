/** The user store of the forum backend (package `user`,
    UserMemoryRepository): a map from key to user. Register files users
    under their generated ID, while Authorize looks them up with the
    username as the key. */
module Users {

  import opened Outcomes

  datatype User = User(id: string, username: string, password: string)

  class UserRepo {
    var data: map<string, User>

    /** NewMemoryRepo */
    constructor ()
      ensures data == map[]
    {
      data := map[];
    }

    /** Stores a new user under a freshly generated ID. There is no check
        for a username that is already taken, and registration never fails. */
    method Register(username: string, password: string, freshId: string) returns (user: User)
      requires freshId !in data
      modifies this
      ensures user == User(freshId, username, password)
      ensures data == old(data)[freshId := user]
      ensures |data| == |old(data)| + 1
    {
      user := User(freshId, username, password);
      data := data[user.id := user];
    }

    /** Register as it was evidently meant to work with Authorize: the user
        is filed under the username that Authorize looks up. */
    method RegisterByUsername(username: string, password: string, freshId: string) returns (user: User)
      modifies this
      ensures user == User(freshId, username, password)
      ensures data == old(data)[username := user]
      ensures Authorize(username, password) == Ok(user)
    {
      user := User(freshId, username, password);
      data := data[username := user];
    }

    /** Looks the username up as a map key; fails with ErrNoUser when no key
        equals it and with ErrBadPass when the stored password differs. */
    function Authorize(username: string, password: string): (r: Result<User>)
      reads this
      ensures r == Err(NoUser) <==> username !in data
      ensures r == Err(BadPass) <==> username in data && data[username].password != password
      ensures r.Ok? ==> username in data && r.value == data[username] && r.value.password == password
    {
      if username !in data then Err(NoUser)
      else if data[username].password != password then Err(BadPass)
      else Ok(data[username])
    }
  }

  /** With users filed by Register under IDs, a user whose username is not
      also one of those IDs cannot log in with the right password. */
  lemma RegisteredUserCannotLogIn(repo: UserRepo, user: User)
    requires forall k :: k in repo.data ==> repo.data[k].id == k
    requires user.id in repo.data && repo.data[user.id] == user
    requires forall k :: k in repo.data ==> k != user.username
    ensures repo.Authorize(user.username, user.password) == Err(NoUser)
  {
    assert user.username !in repo.data;
  }

  /** A concrete case: one registered user, "alice" with ID "id-1". */
  lemma RegisterThenAuthorizeExample(repo: UserRepo)
    requires repo.data == map["id-1" := User("id-1", "alice", "secret")]
    ensures repo.Authorize("alice", "secret") == Err(NoUser)
  {
    assert "alice" != "id-1";
  }
}
