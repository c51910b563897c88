/** The server's registry (the Memory record of server/server.go): the
    registered users, the live sessions and the game rooms, with the
    handlers that act on them before a request reaches a game: register,
    login, checkToken, getUsername, enterGame and the session cleanup of a
    closed connection. */
module Registry {

  import opened GameTypes
  import opened GameState

  /** What checkToken makes of a request. The token's signature check is
      outside the model: a request carries its outcome, the user ID the
      token names or None when verification failed. */
  datatype Access =
    | Rejected               // verification failed: no reply, the handler stops
    | Refused                // a verified token naming no user: status 401
    | Admitted(key: UserId)  // the session stored under `key`

  /** The reply of enterGame to an admitted caller: the usernames already
      seated (status 200), the seats that were sent a "newplayer" notice,
      that notice, and whether the caller filled the room. */
  datatype Entry = Entry(present: seq<Username>, notified: seq<UserId>, notice: Event, starts: bool)

  /** Every user is stored under its own user ID. */
  predicate KeyedById(users: map<UserId, User>)
  {
    forall id :: id in users ==> users[id].userId == id
  }

  /** No two users share a username. */
  predicate NamesUnique(users: map<UserId, User>)
  {
    forall a, b :: a in users && b in users && users[a].username == users[b].username ==> a == b
  }

  /** `holders` names, for every username in use, the one user holding it. */
  predicate HeldBy(users: map<UserId, User>, holders: map<Username, UserId>)
  {
    forall id :: id in users ==> users[id].username in holders && holders[users[id].username] == id
  }

  /** A holder for every username means no username is held twice. */
  lemma HeldNamesUnique(users: map<UserId, User>, holders: map<Username, UserId>)
    requires HeldBy(users, holders)
    ensures NamesUnique(users)
  {
  }

  predicate UsernameTaken(users: map<UserId, User>, username: Username)
  {
    exists id :: id in users && users[id].username == username
  }

  predicate CredentialsMatch(users: map<UserId, User>, username: Username, password: string)
  {
    exists id :: id in users && users[id].username == username && users[id].password == password
  }

  /** Some user with this username holds a session under its own ID. */
  predicate LoggedIn(users: map<UserId, User>, sessions: map<UserId, Session>, username: Username)
  {
    exists id :: id in users && users[id].username == username && users[id].userId in sessions
  }

  /** Every session belongs to a registered user. */
  predicate SessionsOfUsers(sessions: map<UserId, Session>, users: map<UserId, User>)
  {
    forall k :: k in sessions ==> sessions[k].userId in users
  }

  /** Every seat of a room is a registered user under its username. */
  predicate SeatsOfUsers(seats: map<UserId, Username>, users: map<UserId, User>)
  {
    forall u :: u in seats ==> u in users && seats[u] == users[u].username
  }

  /** The user holding a username, when some user does. */
  ghost function OwnerOf(users: map<UserId, User>, username: Username): (id: UserId)
    requires UsernameTaken(users, username)
    ensures id in users && users[id].username == username
  {
    var id :| id in users && users[id].username == username; id
  }

  /** The verdict of checkToken on a verification outcome. */
  function Verdict(users: map<UserId, User>, verified: Option<UserId>): (a: Access)
    ensures a.Admitted? <==> verified.Some? && verified.value in users
    ensures a.Admitted? ==> a.key == verified.value
    ensures a == Rejected <==> verified.None?
  {
    if verified.None? then Rejected
    else if verified.value !in users then Refused
    else Admitted(verified.value)
  }

  /** The sessions after checkToken admitted `key`: a session is created,
      with no game, only when none is stored under `key`. */
  function AfterCheck(sessions: map<UserId, Session>, key: UserId, connReq: Conn, connBrcast: Conn): (r: map<UserId, Session>)
    ensures key in r && forall k :: k in r ==> k in sessions || k == key
    ensures key in sessions ==> r == sessions
    ensures key !in sessions ==> r[key] == Session(key, connReq, connBrcast, -1)
    ensures forall k :: k in sessions ==> k in r && r[k] == sessions[k]
  {
    if key in sessions then sessions else sessions[key := Session(key, connReq, connBrcast, -1)]
  }

  /** loginHandler stores its session under the request's user ID, so a
      login whose request names anything but the user's own ID leaves the
      user not logged in: the 403 check cannot see that session, and the
      same credentials log in again. */
  lemma LoginLeavesLoggedOut(users: map<UserId, User>, sessions: map<UserId, Session>, username: Username,
                             requestId: UserId, session: Session)
    requires KeyedById(users) && NamesUnique(users)
    requires UsernameTaken(users, username) && requestId != OwnerOf(users, username)
    requires !LoggedIn(users, sessions, username)
    ensures !LoggedIn(users, sessions[requestId := session], username)
  {
    var owner := OwnerOf(users, username);
    forall id | id in users && users[id].username == username
      ensures users[id].userId !in sessions[requestId := session]
    {
      assert id == owner;
    }
  }

  /** The token issued by such a login names the request's user ID, which
      checkToken refuses when no user is stored under it. */
  lemma LoginTokenRefused(users: map<UserId, User>, requestId: UserId, username: Username)
    requires requestId !in users
    ensures Verdict(users, Some(Token(requestId, username).userId)) == Refused
  {
  }

  /** Adding a user under a fresh ID keeps every room's seats those of
      registered users. */
  lemma RegisterKeepsRooms(games: map<int, Game>, users: map<UserId, User>, newId: UserId, user: User)
    requires newId !in users
    ensures forall g :: g in games && SeatsOfUsers(games[g].seats, users) ==>
              SeatsOfUsers(games[g].seats, users[newId := user])
  {
  }

  /** The registry. */
  class Memory {
    var users: map<UserId, User>
    var sessions: map<UserId, Session>
    var games: map<int, Game>
    var lastGameId: int
    ghost var holders: map<Username, UserId>

    /** Users stored under their IDs with distinct usernames, sessions of
        registered users, valid rooms under IDs up to `lastGameId`, and the
        room at `lastGameId`, if any, still open: not started and not
        full. */
    ghost predicate Valid()
      reads this, games.Values
    {
      Registered() && RoomsValid() && RoomsOpen()
    }

    /** Users stored under their IDs with distinct usernames, and sessions
        of registered users. */
    ghost predicate Registered()
      reads this`users, this`holders, this`sessions
    {
      KeyedById(users) && HeldBy(users, holders) && SessionsOfUsers(sessions, users)
    }

    ghost predicate IdsUpToLast()
      reads this`games, this`lastGameId
    {
      forall g :: g in games ==> g <= lastGameId
    }

    /** Rooms exist only under IDs up to `lastGameId`, and the one at
        `lastGameId`, if any, is open: not started and not full. */
    ghost predicate RoomsOpen()
      reads this`games, this`lastGameId, games.Values
    {
      && IdsUpToLast()
      && (lastGameId in games ==>
            !games[lastGameId].isGameStarted && |games[lastGameId].seats| < MaxUsersCnt)
    }

    /** Every room is valid, seats registered users under their usernames
        and is stored under its own game ID (so no room object is stored
        twice). */
    ghost predicate RoomsValid()
      reads this`users, this`games, games.Values
    {
      forall g :: g in games ==>
        games[g].Valid() && SeatsOfUsers(games[g].seats, users) && games[g].gameId == g
    }

    constructor ()
      ensures Valid()
      ensures users == map[] && sessions == map[] && games == map[] && lastGameId == 0
    {
      users := map[];
      sessions := map[];
      games := map[];
      lastGameId := 0;
      holders := map[];
    }

    /** registerHandler. `newId` is the fresh ID uuid.New() draws. */
    method Register(username: Username, password: string, newId: UserId, connReq: Conn, connBrcast: Conn)
      returns (status: int, token: Option<Token>)
      requires Valid()
      requires newId !in users
      modifies this`users, this`sessions, this`holders
      ensures Valid()
      ensures UsernameTaken(old(users), username) ==>
                status == ErrAlreadyRegistered && token == None
                && users == old(users) && sessions == old(sessions)
      ensures !UsernameTaken(old(users), username) ==>
                && status == StatusOk
                && token == Some(Token(newId, username))
                && users == old(users)[newId := User(username, password, newId)]
                && sessions == old(sessions)[newId := Session(newId, connReq, connBrcast, -1)]
    {
      var taken := ScanTaken(users, username);
      if taken {
        return ErrAlreadyRegistered, None;
      }
      RegisterKeepsRooms(games, users, newId, User(username, password, newId));
      users := users[newId := User(username, password, newId)];
      holders := holders[username := newId];
      sessions := sessions[newId := Session(newId, connReq, connBrcast, -1)];
      status, token := StatusOk, Some(Token(newId, username));
    }

    /** loginHandler. `requestId` is the user ID field of the request body,
        normally empty: the new session is stored under it, holding the ID
        found by username, and the token is issued for it. */
    method Login(username: Username, password: string, requestId: UserId, connReq: Conn, connBrcast: Conn)
      returns (status: int, token: Option<Token>)
      requires Valid()
      modifies this`sessions
      ensures Valid()
      ensures !CredentialsMatch(users, username, password) ==>
                status == ErrInvalidData && token == None && sessions == old(sessions)
      ensures CredentialsMatch(users, username, password) && LoggedIn(users, old(sessions), username) ==>
                status == ErrAlreadyLoggedIn && token == None && sessions == old(sessions)
      ensures CredentialsMatch(users, username, password) && !LoggedIn(users, old(sessions), username) ==>
                && status == StatusOk
                && token == Some(Token(requestId, username))
                && sessions == old(sessions)[requestId := Session(OwnerOf(users, username), connReq, connBrcast, -1)]
    {
      var found := ScanCredentials(users, username, password);
      if !found {
        return ErrInvalidData, None;
      }
      var loggedIn := ScanLoggedIn(users, sessions, username);
      if loggedIn {
        return ErrAlreadyLoggedIn, None;
      }
      HeldNamesUnique(users, holders);
      var userId := ScanUserId(users, username);
      sessions := sessions[requestId := Session(userId, connReq, connBrcast, -1)];
      status, token := StatusOk, Some(Token(requestId, username));
    }

    /** checkToken: a failed verification ends the request without a reply,
        an unknown user ID is answered with 401, and a known one gets a new
        session without a game only when none is stored under it. */
    method CheckToken(verified: Option<UserId>, connReq: Conn, connBrcast: Conn) returns (access: Access)
      requires Valid()
      modifies this`sessions
      ensures Valid()
      ensures access == Verdict(users, verified)
      ensures access.Admitted? ==> sessions == AfterCheck(old(sessions), access.key, connReq, connBrcast)
      ensures !access.Admitted? ==> sessions == old(sessions)
    {
      access := Verdict(users, verified);
      if access.Admitted? {
        Rebind(AfterCheck(sessions, access.key, connReq, connBrcast));
      }
    }

    /** getUsernameHandler: the username of the session's user. */
    method GetUsername(verified: Option<UserId>, connReq: Conn, connBrcast: Conn) returns (access: Access, username: Username)
      requires Valid()
      modifies this`sessions
      ensures Valid()
      ensures access == Verdict(users, verified)
      ensures access.Admitted? ==>
                && sessions == AfterCheck(old(sessions), access.key, connReq, connBrcast)
                && sessions[access.key].userId in users
                && username == users[sessions[access.key].userId].username
      ensures !access.Admitted? ==> sessions == old(sessions)
    {
      access := CheckToken(verified, connReq, connBrcast);
      if !access.Admitted? {
        return access, "";
      }
      username := users[sessions[access.key].userId].username;
    }

    /** The room at `lastGameId`, when it exists: the one room object
        enterGameHandler may change. */
    ghost function OpenRooms(): set<Game>
      reads this`games, this`lastGameId
    {
      if lastGameId in games then {games[lastGameId]} else {}
    }

    /** The seats of the room at `lastGameId`, none while it does not exist. */
    ghost function RoomSeats(): map<UserId, Username>
      reads this`games, this`lastGameId, games.Values
    {
      if lastGameId in games then games[lastGameId].seats else map[]
    }

    /** The answer counters of the room at `lastGameId`. */
    ghost function RoomCounters(): map<UserId, int>
      reads this`games, this`lastGameId, games.Values
    {
      if lastGameId in games then games[lastGameId].questionNum else map[]
    }

    /** enterGameHandler: the caller's session takes the request's
        connections and the ID of the open room; the rest is Join. */
    method EnterGame(verified: Option<UserId>, connReq: Conn, connBrcast: Conn) returns (access: Access, entry: Option<Entry>)
      requires Valid()
      modifies this`sessions, this`games, this`lastGameId, OpenRooms()
      ensures Valid()
      ensures access == Verdict(users, verified)
      ensures !access.Admitted? ==>
                && entry == None && sessions == old(sessions) && games == old(games)
                && lastGameId == old(lastGameId) && unchanged(OpenRooms())
      ensures access.Admitted? ==>
                var checked := AfterCheck(old(sessions), access.key, connReq, connBrcast);
                var userId := checked[access.key].userId;
                && userId in users
                && sessions == checked[access.key := Session(userId, connReq, connBrcast, old(lastGameId))]
                && entry.Some?
                && Joined(entry.value, userId, old(lastGameId), old(games), old(RoomSeats()), old(RoomCounters()))
    {
      access := Verdict(users, verified);
      if !access.Admitted? {
        return access, None;
      }
      var checked := AfterCheck(sessions, access.key, connReq, connBrcast);
      var joined := Join(access.key, checked, connReq, connBrcast);
      entry := Some(joined);
    }

    /** Replaces the sessions by `s`, sessions of registered users. */
    method Rebind(s: map<UserId, Session>)
      requires Valid() && SessionsOfUsers(s, users)
      modifies this`sessions
      ensures Valid()
      ensures sessions == s
    {
      sessions := s;
    }

    /** What Join did to the open room `room` for the user `userId`: the
        room exists (created, as a new object, when `before` lacked it) and
        holds the user under its username with answer counter 0, `entry`
        lists the seats `seated` held before with their usernames and
        carries the "newplayer" notice naming the user, and the room
        started, and `lastGameId` moved past it, exactly when it filled. */
    ghost predicate Joined(entry: Entry, userId: UserId, room: int, before: map<int, Game>,
                           seated: map<UserId, Username>, counters: map<UserId, int>)
      reads this`users, this`games, this`lastGameId, games.Values
    {
      && userId in users
      && room in games
      && (room in before ==> games == before)
      && (room !in before ==> games == before[room := games[room]])
      && games[room].seats == seated[userId := users[userId].username]
      && games[room].questionNum == counters[userId := 0]
      && entry.notice == NewPlayer(users[userId].username)
      && Roster(entry.present, entry.notified, seated)
      && (entry.starts <==> |games[room].seats| == MaxUsersCnt)
      && games[room].isGameStarted == entry.starts
      && lastGameId == if entry.starts then room + 1 else room
    }

    /** The second half of enterGameHandler: the caller's session first takes
        the connections and the open room's ID; then the open room is
        created when missing, every seated user is sent the "newplayer" notice naming the
        caller, the caller is told the usernames already seated and is
        seated, and a room that fills starts its game (delayedStartGame,
        run separately) and is closed to later callers. */
    method Join(key: UserId, checked: map<UserId, Session>, connReq: Conn, connBrcast: Conn) returns (entry: Entry)
      requires Valid() && key in checked && SessionsOfUsers(checked, users)
      modifies this`sessions, this`games, this`lastGameId, OpenRooms()
      ensures Valid()
      ensures var userId := checked[key].userId;
              && sessions == checked[key := Session(userId, connReq, connBrcast, old(lastGameId))]
              && Joined(entry, userId, old(lastGameId), old(games), old(RoomSeats()), old(RoomCounters()))
      ensures old(lastGameId) !in old(games) ==> fresh(games[old(lastGameId)])
    {
      var userId := checked[key].userId;
      Rebind(checked[key := Session(userId, connReq, connBrcast, lastGameId)]);
      entry := Settle(userId);
    }

    /** The room work of Join: the caller is announced and seated. */
    method Settle(userId: UserId) returns (entry: Entry)
      requires Valid() && userId in users
      modifies this`games, this`lastGameId, OpenRooms()
      ensures Valid()
      ensures Joined(entry, userId, old(lastGameId), old(games), old(RoomSeats()), old(RoomCounters()))
      ensures old(lastGameId) !in old(games) ==> fresh(games[old(lastGameId)])
    {
      var room := OpenRoom();
      entry := Fill(room, userId);
    }

    /** Announces and seats the user in the open room `room`. */
    method Fill(room: Game, userId: UserId) returns (entry: Entry)
      requires Valid() && userId in users
      requires lastGameId in games && room == games[lastGameId]
      modifies this`lastGameId, room`seats, room`owner, room`questionNum, room`isGameStarted
      ensures Valid()
      ensures Joined(entry, userId, old(lastGameId), games, old(room.seats), old(room.questionNum))
    {
      var present, notified := ListSeated(room.seats);
      var full := SeatAndClose(room, userId);
      entry := Entry(present, notified, NewPlayer(users[userId].username), full);
    }

    /** Seats the user in the open room `room` and closes the room when it
        filled. */
    method SeatAndClose(room: Game, userId: UserId) returns (full: bool)
      requires Valid() && userId in users
      requires lastGameId in games && room == games[lastGameId]
      modifies this`lastGameId, room`seats, room`owner, room`questionNum, room`isGameStarted
      ensures Valid()
      ensures room.seats == old(room.seats)[userId := users[userId].username]
      ensures room.questionNum == old(room.questionNum)[userId := 0]
      ensures full <==> |room.seats| == MaxUsersCnt
      ensures room.isGameStarted == full
      ensures lastGameId == if full then old(lastGameId) + 1 else old(lastGameId)
    {
      full := SeatInRoom(room, userId);
      CloseIfFull(room);
    }

    /** The room at `lastGameId`, created empty when missing. */
    method OpenRoom() returns (room: Game)
      requires Valid()
      modifies this`games
      ensures Valid()
      ensures lastGameId in games && room == games[lastGameId]
      ensures lastGameId in old(games) ==> games == old(games)
      ensures lastGameId !in old(games) ==> games == old(games)[lastGameId := room] && fresh(room)
      ensures room.seats == old(RoomSeats()) && room.questionNum == old(RoomCounters())
    {
      if lastGameId in games {
        room := games[lastGameId];
      } else {
        room := new Game(lastGameId);
        games := games[lastGameId := room];
      }
    }

    /** Seats a registered user in the open room under its username. */
    method SeatInRoom(room: Game, userId: UserId) returns (full: bool)
      requires Valid()
      requires lastGameId in games && room == games[lastGameId] && userId in users
      modifies room`seats, room`owner, room`questionNum, room`isGameStarted
      ensures RoomsValid()
      ensures room.seats == old(room.seats)[userId := users[userId].username]
      ensures room.questionNum == old(room.questionNum)[userId := 0]
      ensures |room.seats| <= MaxUsersCnt
      ensures full <==> |room.seats| == MaxUsersCnt
      ensures room.isGameStarted == full
    {
      assert room.gameId == lastGameId && room.Valid();
      full := room.Seat(userId, users[userId].username);
      forall g | g in games
        ensures games[g].Valid() && SeatsOfUsers(games[g].seats, users) && games[g].gameId == g
      {
        if g != lastGameId {
          assert games[g].gameId != room.gameId;
        }
      }
    }

    /** A room that filled is closed: `lastGameId` moves past it. */
    method CloseIfFull(room: Game)
      requires Registered() && RoomsValid() && IdsUpToLast()
      requires lastGameId in games && room == games[lastGameId]
      requires |room.seats| <= MaxUsersCnt && room.isGameStarted == (|room.seats| == MaxUsersCnt)
      modifies this`lastGameId
      ensures Valid()
      ensures lastGameId == if room.isGameStarted then old(lastGameId) + 1 else old(lastGameId)
    {
      lastGameId := if room.isGameStarted then lastGameId + 1 else lastGameId;
    }

    /** The cleanup of newClient once the command connection `conn` is
        closed. */
    method Disconnect(conn: Conn)
      requires Valid()
      modifies this`sessions
      ensures Valid()
      ensures forall k :: k in sessions ==> k in old(sessions) && sessions[k] == old(sessions)[k]
      ensures forall k :: k in old(sessions) && old(sessions)[k].userId == k && old(sessions)[k].connReq == conn ==>
                k !in sessions
      ensures (forall k :: k in old(sessions) ==> old(sessions)[k].userId == k) ==>
                sessions == map k | k in old(sessions) && old(sessions)[k].connReq != conn :: old(sessions)[k]
    {
      var before := sessions;
      sessions := DropSessions(sessions, conn);
      if forall k :: k in before ==> before[k].userId == k {
        DropSelfKeyed(before, conn, sessions);
      }
    }
  }

  /** The duplicate check of registerHandler: a scan of the users that stops
      at the first one holding the username. */
  method ScanTaken(users: map<UserId, User>, username: Username) returns (taken: bool)
    ensures taken == UsernameTaken(users, username)
  {
    var todo := users.Keys;
    taken := false;
    while todo != {} && !taken
      invariant todo <= users.Keys
      invariant taken ==> UsernameTaken(users, username)
      invariant !taken ==> forall id :: id in users && id !in todo ==> users[id].username != username
      decreases |todo|
    {
      var id :| id in todo;
      if users[id].username == username {
        taken := true;
      }
      todo := todo - {id};
    }
  }

  /** The credentials check of loginHandler, stopping at the first match. */
  method ScanCredentials(users: map<UserId, User>, username: Username, password: string) returns (found: bool)
    ensures found == CredentialsMatch(users, username, password)
  {
    var todo := users.Keys;
    found := false;
    while todo != {} && !found
      invariant todo <= users.Keys
      invariant found ==> CredentialsMatch(users, username, password)
      invariant !found ==> forall id :: id in users && id !in todo ==>
                  !(users[id].username == username && users[id].password == password)
      decreases |todo|
    {
      var id :| id in todo;
      if users[id].username == username && users[id].password == password {
        found := true;
      }
      todo := todo - {id};
    }
  }

  /** The already-logged-in check of loginHandler. */
  method ScanLoggedIn(users: map<UserId, User>, sessions: map<UserId, Session>, username: Username) returns (loggedIn: bool)
    ensures loggedIn == LoggedIn(users, sessions, username)
  {
    var todo := users.Keys;
    loggedIn := false;
    while todo != {} && !loggedIn
      invariant todo <= users.Keys
      invariant loggedIn ==> LoggedIn(users, sessions, username)
      invariant !loggedIn ==> forall id :: id in users && id !in todo ==>
                  !(users[id].username == username && users[id].userId in sessions)
      decreases |todo|
    {
      var id :| id in todo;
      if users[id].username == username && users[id].userId in sessions {
        loggedIn := true;
      }
      todo := todo - {id};
    }
  }

  /** The ID lookup of loginHandler: the user ID of the (last scanned) user
      holding the username, or "" when there is none. */
  method ScanUserId(users: map<UserId, User>, username: Username) returns (userId: UserId)
    ensures !UsernameTaken(users, username) ==> userId == ""
    ensures UsernameTaken(users, username) && KeyedById(users) && NamesUnique(users) ==>
              userId == OwnerOf(users, username)
  {
    var todo := users.Keys;
    userId := "";
    ghost var seen := false;
    while todo != {}
      invariant todo <= users.Keys
      invariant seen ==> exists id :: id in users && users[id].username == username && users[id].userId == userId
      invariant !seen ==> userId == "" && forall id :: id in users && id !in todo ==> users[id].username != username
      decreases |todo|
    {
      var id :| id in todo;
      if users[id].username == username {
        userId := users[id].userId;
        seen := true;
      }
      todo := todo - {id};
    }
  }

  /** `notified` lists every seat once and `present` the username of each,
      in the same order. */
  predicate Roster(present: seq<Username>, notified: seq<UserId>, seats: map<UserId, Username>)
  {
    && |notified| == |present| == |seats|
    && (forall i :: 0 <= i < |notified| ==> notified[i] in seats && present[i] == seats[notified[i]])
    && (forall i, j :: 0 <= i < j < |notified| ==> notified[i] != notified[j])
    && (forall u :: u in seats ==> u in notified)
  }

  /** The roster scan of enterGameHandler: every seated user is sent the
      notice and contributes its username to the reply, in the map's
      (unspecified) iteration order. */
  method ListSeated(seats: map<UserId, Username>) returns (present: seq<Username>, notified: seq<UserId>)
    ensures Roster(present, notified, seats)
  {
    var todo := seats.Keys;
    present, notified := [], [];
    while todo != {}
      invariant todo <= seats.Keys
      invariant |notified| == |present| == |seats.Keys| - |todo|
      invariant forall i :: 0 <= i < |notified| ==> notified[i] in seats && notified[i] !in todo && present[i] == seats[notified[i]]
      invariant forall i, j :: 0 <= i < j < |notified| ==> notified[i] != notified[j]
      invariant forall u :: u in seats && u !in todo ==> u in notified
      decreases |todo|
    {
      var u :| u in todo;
      present, notified := present + [seats[u]], notified + [u];
      todo := todo - {u};
    }
  }

  /** The session cleanup when a command connection reaches end of file:
      over the sessions as they stand, each one still present whose command
      connection is the closed one has the session stored under its user ID
      deleted. */
  method DropSessions(sessions: map<UserId, Session>, conn: Conn) returns (r: map<UserId, Session>)
    ensures forall k :: k in r ==> k in sessions && r[k] == sessions[k]
    ensures forall k :: k in sessions && k !in r ==>
              exists j :: j in sessions && sessions[j].connReq == conn && sessions[j].userId == k
    ensures forall k :: k in sessions && sessions[k].userId == k && sessions[k].connReq == conn ==> k !in r
  {
    var todo := sessions.Keys;
    r := sessions;
    while todo != {}
      invariant todo <= sessions.Keys
      invariant forall k :: k in r ==> k in sessions && r[k] == sessions[k]
      invariant forall k :: k in sessions && k !in r ==>
                  exists j :: j in sessions && sessions[j].connReq == conn && sessions[j].userId == k
      invariant forall k :: k in sessions && k !in todo && sessions[k].userId == k && sessions[k].connReq == conn ==> k !in r
      decreases |todo|
    {
      var k :| k in todo;
      if k in r && r[k].connReq == conn {
        r := r - {r[k].userId};
      }
      todo := todo - {k};
    }
  }

  /** When every session is stored under its own user ID, the cleanup drops
      exactly the sessions of the closed connection. */
  lemma DropSelfKeyed(sessions: map<UserId, Session>, conn: Conn, r: map<UserId, Session>)
    requires forall k :: k in sessions ==> sessions[k].userId == k
    requires forall k :: k in r ==> k in sessions && r[k] == sessions[k]
    requires forall k :: k in sessions && k !in r ==>
               exists j :: j in sessions && sessions[j].connReq == conn && sessions[j].userId == k
    requires forall k :: k in sessions && sessions[k].userId == k && sessions[k].connReq == conn ==> k !in r
    ensures r == map k | k in sessions && sessions[k].connReq != conn :: sessions[k]
  {
    forall k | k in sessions && k !in r
      ensures sessions[k].connReq == conn
    {
      var j :| j in sessions && sessions[j].connReq == conn && sessions[j].userId == k;
    }
  }
}
