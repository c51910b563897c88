# Xo-xo-touch in Dafny

A model of two parts of the Xo-xo-touch repository, with proofs about them.

**The party-game server (`server/server.go`).** Players register or log in
over a line-based TCP protocol and receive a token. They then enter a game
room, and the room starts once `MaxUsersCnt` (5) players are seated. Each of
the `MaxRoundsCnt` (3) rounds works like this:

- The seats are shuffled.
- Each player is paired with the next player in the shuffled order, one duel
  per seat. Each duel gets a prompt from a fixed pool of ten.
- Every player answers the two duels they take part in.
- Everybody else votes on the duels, one duel at a time.
- Every vote is worth `10 * (round + 1)` points. The points go both to the
  round's table and to the game result.

The model covers:

- **Registry** (`memory.dfy`): users, sessions and rooms (the `Memory`
  record), with register, login, checkToken, getUsername, enterGame and the
  session cleanup of a closed connection.
- **GameState** (`game.dfy`): one room (the `Game` record), with:
  - seating;
  - dealing a round (generateDuels and initResults);
  - the answer, duel and vote handlers;
  - the delayed duel advance and round rollover;
  - the result queries.
- **GameTypes** (`game_types.dfy`): the records, the prompt pool, the duel
  pairing of a round, the lookups by username and the point tallies.
- **Routing** (`routing.dfy`): the method-name switch of `newClient`.

These are classes whose methods update fields in place, as the Go handlers
do. Each method's contract gives the whole new state. The room class keeps
an invariant (`Game.Valid`) across every transition:

- answer counters stay in {0, 1, 2};
- duels are between seated players;
- no duel holds a vote from one of its own two participants;
- the game result mentions only seated players;
- the current round's table adds up to the worth of the votes cast, and
  equals the game result;
- each closed round's table adds up to the worth of the votes its duels
  received, recorded when the round closed (the duels themselves are
  dropped then).

Pure lemmas about the round pairing show that each answer lands in its own
slot. Every player plays exactly two duels per round, and the slots of a
round and the players' answers correspond one to one.

**The forum backend (`zdop/redditclone`).** These are the in-memory
repositories of the forum:

- **Votes** (`votes.dfy`): the votes of a post, a slice in insertion order.
- **Comments** (`comments.dfy`): the comments of a post, also a slice.
- **Posts** (`posts.dfy`): posts in a map keyed by ID.
- **Users** (`users.dfy`): users in a map.

They share an `Outcomes` module for the sentinel errors and a `Slices`
module for the Go splice idiom.

### Behaviour reproduced as the code has it

- **Prompt indices.** Round `r` asks the prompts from index
  `r * MaxRoundsCnt` on, not `r * MaxUsersCnt`, so with five players the
  prompts of consecutive rounds overlap.
- **The vote flag in saveAnswer.** The "already voted" guard (status 406)
  sits in saveAnswer. saveVote itself accepts repeated votes from the same
  user in the same duel.
- **initResults.** It creates a round's table only when the round has none.
  It resets the game result to 0 for every seat on every call. So the game
  result always equals the current round's table (`Game.GetGameResult`), not
  a sum over rounds.
- **Login.** login stores the new session under the user ID of the request
  body, which a client normally leaves empty. It also issues the token for
  that ID. Such a login does not count as logged in for the next login's
  check (`Registry.LoginLeavesLoggedOut`). The token it issues is refused by
  checkToken (`Registry.LoginTokenRefused`).
- **Forum Upvote and Downvote** assign to a copy of the stored vote. A user
  who already voted keeps their first vote (see Findings).
- **Forum Register and Authorize.** Register files users under their
  generated ID. Authorize looks the username up as a key (see Findings).

## Model

| member | source | states |
|---|---|---|
| GameTypes.RoundPrompts | server/server.go:517 | the prompts of round r are the pool read from index r * MaxRoundsCnt on, position by position |
| GameTypes.RoundDuels | server/server.go:503-525 | a round has exactly one well-formed duel per seat of the shuffled order |
| GameTypes.DuelsByUsername | server/server.go:549-559 | every listed position is a duel of the list in which the user takes part |
| GameTypes.SlotHits | server/server.go:552-556 | the positions listed for one duel all name that duel, and there is one exactly when the user takes part in it |
| GameTypes.DuelsByUsernameComplete | server/server.go:549-559 | conversely, every duel in which the user takes part is listed |
| GameTypes.PosInDuel | server/server.go:587-594 | the first slot holding the username, and -1 exactly when no slot holds it |
| GameTypes.DuelsOfPlayer | server/server.go:503-559 | with two or more distinct players, player i takes part in exactly two duels of a round: duels i-1 and i, or 0 and n-1 for the first player |
| GameTypes.PosInRoundDuel | server/server.go:587-594 | a player answers into slot 0 of the duel they open and slot 1 of the duel of the player before them |
| GameTypes.AnswerTargetExplicit | server/server.go:639-652 | the duel and slot that saveAnswer writes the q-th answer of player i to, given in closed form |
| GameTypes.TargetThenOwner | server/server.go:639-652 | each of a player's two answers lands in a slot of a round duel whose owner is that player and that answer number |
| GameTypes.OwnerThenTarget | server/server.go:639-652 | every slot of every round duel is written by its owner's answer, so answers and slots correspond one to one |
| GameTypes.WorthIsProduct | server/server.go:776-777 | the worth of v votes of p points each is p * v |
| GameTypes.VotesCastUpdate | server/server.go:773 | replacing one duel changes the total vote count by the difference of the two duels' counts |
| GameTypes.AddVoterCount | server/server.go:773 | appending a voter to one slot adds exactly one vote |
| GameTypes.VotesCastAppendFresh | server/server.go:516-523 | appending duels without voters leaves the vote count unchanged |
| GameTypes.RoundDuelsUnvoted | server/server.go:516-521 | a freshly dealt round carries no votes |
| GameTypes.AddPoints | server/server.go:776-777 | adding to a missing key counts from 0, the key is added, and every other entry is kept |
| GameTypes.AddPointsSum | server/server.go:776-777 | adding points to one entry adds exactly those points to the table's sum |
| GameTypes.ZeroOn | server/server.go:529-539 | zeroing keeps the old keys and adds the zeroed ones |
| GameTypes.ZeroTableSum | server/server.go:529-535 | a new round table of zeros sums to 0 |
| GameTypes.ZeroOnCovering | server/server.go:536-539 | zeroing a set of keys that covers the whole result forgets every earlier value |
| GameTypes.SetToZero | server/server.go:851-853 | the loop sets every listed key to 0 and keeps the other entries |
| GameTypes.ClearVoted | server/server.go:807-812 | the loop clears every present vote flag of the seats and adds no key |
| GameTypes.ScanAnswered | server/server.go:680-686 | the scan is true exactly when every seated user has answered twice |
| GameTypes.ScanVoted | server/server.go:783-800 | the scan is true exactly when every seated user outside the duel has voted |
| GameState.AnswerDuel | server/server.go:639-649 | the q-th duel listing the user is a duel of the round in which the user takes part |
| GameState.ShuffledNamesDistinct | server/server.go:509-514 | the usernames of a shuffle of seats with distinct usernames are distinct |
| GameState.SeatKeepsInvariant | server/server.go:455-457 | seating a user under a username no other seat holds keeps the seat inverse, the counters, the seated duels and the result keys |
| GameState.RoundDuelsSeated | server/server.go:511-523 | a round dealt from a shuffle of the seats pairs seated usernames only |
| GameState.DealKeepsTally | server/server.go:527-540 | the new zero table sums to the worth of the unvoted duels and equals the zeroed game result |
| GameState.DealKeepsInvariant | server/server.go:542-547 | dealing a round from a shuffle keeps the room invariant |
| GameState.AnswerKeepsInvariant | server/server.go:652 | writing an answer keeps the duels seated and the tallies matching |
| GameState.VoteKeepsInvariant | server/server.go:773-777 | recording a vote and crediting its points keeps the table equal to the worth of the votes cast |
| GameState.WithVoteSelfFree | server/server.go:753-777 | a vote from outside the duel, the only kind saveVote records, keeps the duel free of self-votes |
| GameState.RoundDuelsSelfFree | server/server.go:511-523 | freshly dealt duels hold no self-vote |
| GameState.PastTalliesKeep | server/server.go:527-540 | writing the current round's table leaves every closed round's match with its recorded votes intact |
| GameState.CloseKeepsPastTallies | server/server.go:840-854 | closing a round with its votes recorded adds it to the closed rounds whose tables match their votes |
| GameState.Game.constructor | server/server.go:405-419 | a new room is empty, not started, at round 0 and duel 0 |
| GameState.Game.Seat | server/server.go:455-468 | the user is seated with answer counter 0, and the game starts exactly when the roster reaches MaxUsersCnt |
| GameState.Game.GenerateDuels | server/server.go:503-525 | the round's duels, RoundDuels of the shuffled usernames and the round's prompts, are appended |
| GameState.Game.InitResults | server/server.go:527-540 | the round gets a zero table only when it has none, and every seat's game result is set to 0 |
| GameState.Game.DealRound | server/server.go:545-546 | after dealing, the duels are the round's duels, the round's table is zero, and the game result equals it |
| GameState.Game.DealDuels | server/server.go:503-525 | generateDuels between rounds: the duels become the round's duels and the invariant holds |
| GameState.Game.OpenTables | server/server.go:527-540 | initResults on unvoted duels: the zero table is created, the game result zeroed, and the invariant holds |
| GameState.Game.StartGame | server/server.go:542-547 | the "gamestarted" notice and the first round dealt, keeping the invariant |
| GameState.Game.Question | server/server.go:561-585 | the prompt returned is that of a duel in which the caller takes part |
| GameState.Game.SaveAnswer | server/server.go:611-692 | 406 for a user flagged as voted and 405 after two answers, both with no change; otherwise the answer goes to the caller's slot, the counter moves on, lastanswer is set on the second answer, and "everyoneanswered" is sent exactly when all seats have answered twice |
| GameState.Game.AcceptAnswer | server/server.go:637-691 | the accepted branch of saveAnswer: the new duels, counter and phase flag |
| GameState.Game.CountAnswer | server/server.go:677-691 | the counter is incremented, and the phase closes exactly when every seat has answered twice |
| GameState.Game.WriteAnswer | server/server.go:637-652 | the caller's answer goes to their slot of the counter-th duel listing them, and only that slot changes |
| GameState.Game.GetDuel | server/server.go:694-725 | refused with 405 exactly while the answer phase is open or the duel counter equals MaxUsersCnt; otherwise the current duel's prompt and answers |
| GameState.Game.SaveVote | server/server.go:727-832 | 405 before everyone has answered or when the duel counter equals MaxUsersCnt, and 406 for a participant, all with no change; otherwise the vote is recorded and credited, and the duel ends exactly when every other seat has voted, then clearing the flags and scheduling the next duel or round |
| GameState.Game.AcceptVote | server/server.go:773-830 | the accepted branch of saveVote: new duels, tallies, flags, notices and deferred step |
| GameState.Game.CloseDuelVoting | server/server.go:783-812 | the duel ends exactly when every non-participant has voted, and then every seat's flag is cleared |
| GameState.Game.RecordVote | server/server.go:773-777 | the voter joins the slot's voter list and is flagged, and the slot's owner gains the round's points in both tallies |
| GameState.Game.AdvanceDuel | server/server.go:834-838 | the duel counter moves on by one from whatever it is, with the "newduelvotingstarted" notice; no bound is checked |
| GameState.Game.AdvanceDuelFrom | server/server.go:817-838 | the corrected step moves the counter only from the duel that spawned it, so a step spawned before the round's last duel never takes the counter to MaxUsersCnt |
| GameState.DoubleCloseStalls | server/server.go:727-838 | two next-duel steps spawned by the duel before the last take the counter to MaxUsersCnt, where votes, the duel and its result are refused with 405 and no round end is scheduled |
| GameState.DoubleCloseReachesLastDuel | server/server.go:727-838 | with the corrected step the same double close leaves the round's last duel current and shown, and a vote on it is accepted and never schedules another duel |
| GameState.Game.EndRound | server/server.go:840-854 | the closing round's vote count is recorded, the round number moves on, "gameended" exactly at MaxRoundsCnt, duel 0, the answer phase reopened, counters 0, no duels |
| GameState.Game.RollOver | server/server.go:840-857 | the whole rollover: the next round dealt from a fresh shuffle, with a zero table that the game result equals |
| GameState.Game.GetDuelResult | server/server.go:859-896 | refused with 405 exactly when the duel counter equals MaxUsersCnt; otherwise the current duel's prompt, participants, answers and the voters of each slot |
| GameState.Game.GetRoundResult | server/server.go:898-919 | the current round's table sums to the round's points per vote times the votes cast, and names only seated players |
| GameState.Game.GetGameResult | server/server.go:921-942 | the game result equals the current round's table and names only seated players |
| Registry.HeldNamesUnique | server/server.go:162-179 | registration keeps usernames unique |
| Registry.Verdict | server/server.go:322-347 | a failed verification is rejected without a reply, an unknown user ID gets 401, and a known one is admitted |
| Registry.AfterCheck | server/server.go:350-361 | a session without a game is created only when none is stored under the key, and every other session is kept |
| Registry.LoginLeavesLoggedOut | server/server.go:268-274 | a session stored under an ID other than the user's own leaves the user not logged in |
| Registry.LoginTokenRefused | server/server.go:277 | the token of such a login names an ID that checkToken refuses |
| Registry.RegisterKeepsRooms | server/server.go:178-179 | adding a user under a fresh ID keeps every room's seats those of registered users |
| Registry.Memory.constructor | server/server.go:1004-1010 | an empty registry, with room ID 0 |
| Registry.Memory.Register | server/server.go:152-212 | 409 with no change for a taken username; otherwise the user and a session without a game are stored under the new ID, and a token for it is issued |
| Registry.Memory.Login | server/server.go:214-286 | 401 for wrong credentials and 403 for a logged-in user, both with no change; otherwise the session of the user found by name is stored under the request's ID, and a token for that ID is issued |
| Registry.Memory.CheckToken | server/server.go:305-362 | the access follows Verdict, and the sessions follow AfterCheck |
| Registry.Memory.GetUsername | server/server.go:364-383 | an admitted caller gets the username of its session's user |
| Registry.Memory.EnterGame | server/server.go:385-469 | the caller's session gets the request's connections and the open room's ID, and the caller joins that room |
| Registry.Memory.Join | server/server.go:396-468 | the room is created if missing, the caller is seated with counter 0 and announced to every seat, and the room starts and closes exactly when it fills |
| Registry.Memory.Rebind | server/server.go:396-397 | the sessions become the given map of sessions of registered users, with the invariant kept |
| Registry.Memory.Settle | server/server.go:399-468 | the open room is created if missing, the caller is announced and seated, and the room starts and closes exactly when it fills |
| Registry.Memory.SeatAndClose | server/server.go:455-468 | the caller is seated under their username with counter 0, and the room starts and the open-room ID moves on exactly when it fills |
| Registry.Memory.OpenRoom | server/server.go:399-422 | the room at lastGameId, created empty and new when missing |
| Registry.Memory.Fill | server/server.go:424-468 | the roster reply, the "newplayer" notice naming the caller, and the seating |
| Registry.Memory.SeatInRoom | server/server.go:453-457 | the caller is seated under its username with counter 0, and the room starts exactly when full |
| Registry.Memory.CloseIfFull | server/server.go:464-468 | lastGameId moves past a room exactly when it started |
| Registry.Memory.Disconnect | server/server.go:947-955 | only sessions are removed; every self-keyed session of the closed connection is removed, and with all sessions self-keyed exactly those are |
| Registry.ScanTaken | server/server.go:162-175 | the scan is true exactly when some user holds the username |
| Registry.ScanCredentials | server/server.go:224-230 | the scan is true exactly when some user has both the username and the password |
| Registry.ScanLoggedIn | server/server.go:245-258 | the scan is true exactly when a user with the username has a session under its ID |
| Registry.ScanUserId | server/server.go:261-266 | the ID of the user holding the username, or "" when none does |
| Registry.ListSeated | server/server.go:426-441 | every seat is notified exactly once, and the reply lists its username at the same position |
| Registry.DropSessions | server/server.go:950-954 | only sessions of users whose session used the closed connection are removed, and every other session is kept |
| Registry.DropSelfKeyed | server/server.go:950-954 | with every session under its own user ID, the cleanup removes exactly the sessions of the closed connection |
| Routing.Route | server/server.go:964-987 | a selected handler is the one whose method name was sent |
| Routing.RouteReachesEveryHandler | server/server.go:964-987 | every handler is reached by its own method name |
| Routing.RouteIgnoresUnknown | server/server.go:964-987 | a line is ignored exactly when its method names no handler |
| Routing.MethodNamesDistinct | server/server.go:964-987 | no two handlers share a method name |
| Slices.RemoveAt | zdop/redditclone/pkg/posts/vote_repo.go:95 | splicing removes exactly one element and keeps the order of the rest |
| Votes.Upvotes | zdop/redditclone/pkg/posts/vote_repo.go:49-54 | there are never more upvotes than votes |
| Votes.Percentage | zdop/redditclone/pkg/posts/vote_repo.go:40-57 | the percentage lies in 0..100, and is 0 without votes |
| Votes.FirstVoteIndex | zdop/redditclone/pkg/posts/vote_repo.go:93-94 | the first position holding the user's vote |
| Votes.Cast | zdop/redditclone/pkg/posts/vote_repo.go:59-87 | a user who voted leaves the list unchanged; any other user gets the vote appended |
| Votes.Unvoted | zdop/redditclone/pkg/posts/vote_repo.go:89-100 | one vote fewer exactly when the user had voted |
| Votes.ScoreRemoveAt | zdop/redditclone/pkg/posts/vote_repo.go:95 | removing a vote takes exactly its value off the score |
| Votes.ScoreAppend | zdop/redditclone/pkg/posts/vote_repo.go:69 | appending a vote adds exactly its value to the score |
| Votes.Score | zdop/redditclone/pkg/posts/vote_repo.go:33-36 | the sum of the vote values; ScoreAppend, ScoreRemoveAt and ScoreBounds state its properties |
| Votes.ScoreBounds | zdop/redditclone/pkg/posts/vote_repo.go:29-38 | with votes of 1 and -1, the score lies between minus and plus the number of votes |
| Votes.CastKeepsWellFormed | zdop/redditclone/pkg/posts/vote_repo.go:59-87 | voting keeps one vote per user, and changes the score by the value exactly when it appends |
| Votes.UnvotedSpec | zdop/redditclone/pkg/posts/vote_repo.go:89-100 | unvoting removes the user's only vote, keeps everybody else's and takes its value off the score |
| Votes.UnvoteUndoesCast | zdop/redditclone/pkg/posts/vote_repo.go:59-100 | unvote undoes a vote just cast by a user without one |
| Votes.ScoreUpdate | zdop/redditclone/pkg/posts/vote_repo.go:63-66 | replacing a vote changes the score by the difference of the values |
| Votes.Recast | zdop/redditclone/pkg/posts/vote_repo.go:63-66 | the corrected vote appends for a new user, as Cast does |
| Votes.RecastSpec | zdop/redditclone/pkg/posts/vote_repo.go:59-87 | the corrected vote keeps one vote per user, leaves the user with the new value, and moves the score from the old value to the new one |
| Votes.ChangedVoteIgnored | zdop/redditclone/pkg/posts/vote_repo.go:78-81 | as written, a downvote after an upvote keeps the upvote and a score of 1; corrected, the score is -1 |
| Votes.VoteRepo.constructor | zdop/redditclone/pkg/posts/vote_repo.go:10-15 | a new vote list is empty |
| Votes.VoteRepo.GetAll | zdop/redditclone/pkg/posts/vote_repo.go:17-27 | every stored vote, in order |
| Votes.VoteRepo.GetScore | zdop/redditclone/pkg/posts/vote_repo.go:29-38 | the sum of the vote values, bounded by the number of votes |
| Votes.VoteRepo.GetUpvotePercentage | zdop/redditclone/pkg/posts/vote_repo.go:40-57 | the share of upvotes in whole percent, rounded down, in 0..100 |
| Votes.VoteRepo.Upvote | zdop/redditclone/pkg/posts/vote_repo.go:59-72 | the new list is Cast with value 1, and stays well formed |
| Votes.VoteRepo.Downvote | zdop/redditclone/pkg/posts/vote_repo.go:74-87 | the new list is Cast with value -1, and stays well formed |
| Votes.VoteRepo.Unvote | zdop/redditclone/pkg/posts/vote_repo.go:89-100 | the new list is Unvoted, and stays well formed |
| Comments.IndexOfId | zdop/redditclone/pkg/posts/comment_repo.go:39-58 | the first position with the ID, and -1 exactly when no comment has it |
| Comments.AddThenFind | zdop/redditclone/pkg/posts/comment_repo.go:60-91 | a comment added under a new ID is the one found by that ID, and deleting it restores the list |
| Comments.DeletedSpec | zdop/redditclone/pkg/posts/comment_repo.go:72-91 | delete removes exactly the first comment with the ID and keeps every other ID findable |
| Comments.Deleted | zdop/redditclone/pkg/posts/comment_repo.go:76-88 | the list without the first comment holding the ID, or unchanged when none does; DeletedSpec states its properties |
| Comments.CommentRepo.constructor | zdop/redditclone/pkg/posts/comment_repo.go:20-25 | a new comment list is empty |
| Comments.CommentRepo.GetAll | zdop/redditclone/pkg/posts/comment_repo.go:27-37 | every stored comment, in order |
| Comments.CommentRepo.GetByID | zdop/redditclone/pkg/posts/comment_repo.go:39-58 | the first comment with the ID, or ErrNoComment exactly when there is none |
| Comments.CommentRepo.Add | zdop/redditclone/pkg/posts/comment_repo.go:60-70 | the comment is appended with the fresh ID and the current time, and that ID is returned |
| Comments.CommentRepo.Delete | zdop/redditclone/pkg/posts/comment_repo.go:72-91 | ErrNoComment exactly when no comment has the ID; the list becomes Deleted |
| Posts.PostRepo.constructor | zdop/redditclone/pkg/posts/post_repo.go:20-25 | a new post store is empty |
| Posts.PostRepo.GetAll | zdop/redditclone/pkg/posts/post_repo.go:27-36 | every stored post exactly once |
| Posts.PostRepo.GetByID | zdop/redditclone/pkg/posts/post_repo.go:38-46 | the stored post, or ErrNoPost exactly when the ID is absent |
| Posts.PostRepo.GetByAuthor | zdop/redditclone/pkg/posts/post_repo.go:48-59 | exactly the posts by that author, each once |
| Posts.PostRepo.GetByCategory | zdop/redditclone/pkg/posts/post_repo.go:61-72 | exactly the posts in that category, each once |
| Posts.PostRepo.Add | zdop/redditclone/pkg/posts/post_repo.go:74-86 | one post more, under the fresh ID, with the current time and new, empty vote and comment lists |
| Posts.PostRepo.UpdateViews | zdop/redditclone/pkg/posts/post_repo.go:88-97 | ErrNoPost exactly when the ID is absent; the stored post is unchanged |
| Posts.PostRepo.Delete | zdop/redditclone/pkg/posts/post_repo.go:99-109 | ErrNoPost exactly when the ID is absent; the post is removed |
| Users.UserRepo.constructor | zdop/redditclone/pkg/user/repo.go:20-25 | a new user store is empty |
| Users.UserRepo.Register | zdop/redditclone/pkg/user/repo.go:27-40 | the user is stored under its fresh ID, with no check for a taken username |
| Users.UserRepo.RegisterByUsername | zdop/redditclone/pkg/user/repo.go:27-56 | the corrected register files the user under its username, and Authorize then returns it |
| Users.UserRepo.Authorize | zdop/redditclone/pkg/user/repo.go:42-56 | ErrNoUser exactly when no key equals the username, ErrBadPass exactly on a wrong password, otherwise the stored user |
| Users.RegisteredUserCannotLogIn | zdop/redditclone/pkg/user/repo.go:37-46 | a user filed under its ID, whose username is no key, cannot authorize even with the right password |
| Users.RegisterThenAuthorizeExample | zdop/redditclone/pkg/user/repo.go:37-46 | the concrete case: after registering alice, authorizing alice fails with ErrNoUser |

## Left out

- Sockets, JSON encoding and the broadcast writes are not modelled. Notices
  become `Event` values returned by the methods.
- Goroutines, mutexes and the sleeps between steps are not modelled. The
  model is sequential. The deferred steps (the game start, the next duel, the
  next round) are methods called by the caller. The handlers that return
  while still holding the registry mutex (`server/server.go` lines 173, 241,
  256, 346 and 645) would block later requests. That deadlock is not modelled.
- Token signing and verification (JWT, HS256) are not modelled. A request
  carries the verification outcome instead (`Option<UserId>`).
- uuid.New, rand.Shuffle and time.Now become parameters: a fresh ID, a
  shuffled order (`IsShuffle`) and an instant. The fresh ID's uniqueness is
  the precondition `newId !in users` or `freshId !in data`.
- Go panics become preconditions:
  - a nil session or a missing game in the game handlers;
  - an answer counter beyond the duel list in getQuestion and saveAnswer;
  - a vote other than 0 or 1, or a round without a table, in saveVote;
  - a duel counter other than MaxUsersCnt that is beyond the duel list, in
    getDuel, saveVote and getDuelResult. The list is empty before the game
    starts, and the counter passes MaxUsersCnt after the stalled round of
    the Findings.
- GameState.Game.GenerateDuels, GameState.Game.DealDuels,
  GameState.Game.DealRound, GameState.Game.StartGame and
  GameState.Game.RollOver require `PromptsAvailable`. With five players,
  round 1 needs prompts 3-7, which fit the pool of ten. Round 2 needs prompts
  6-10, and the rollover after the last round needs 9-13. Both index past the
  pool and panic in the Go code. So an ordinary five-player game crashes the
  server when its third round is dealt, before "gameended" can be sent. The
  code does not show which prompt numbering was meant: a base of
  `roundNum * MaxUsersCnt` overruns the pool in the same round.
- GameState.Game.Question states only that the prompt belongs to a duel in
  which the caller takes part. Which duel it is, the counter-th one, is
  stated by GameState.AnswerDuel and the lemmas about AnswerTarget.
- Registry.Memory.Disconnect pins the new sessions down exactly only when
  every session is stored under its own user ID. The login quirk breaks that
  layout. Otherwise the contract says which sessions may go and which must.
- The game handlers first look up the caller's session and its game through
  `GameId`. The model starts from the room, with the caller's user ID; which
  room the session points at is not modelled.
- Session pointer aliasing is not modelled. enterGame writes the new
  connections and the game ID into the session object that the room also
  holds. The model stores session values, and a room keeps only user IDs
  and usernames.
- enterGame's own order is kept in one respect: the session takes the new
  connections and the room's ID before the caller is seated (Join).
- The `DuelVotingEnded` field of Game is never read, so it is not
  modelled. The `MaxUsersCnt` and `MaxRoundsCnt` fields always hold the
  constants, so the constants are used instead.
- Go distinguishes a nil slice or map from an empty one. The model does
  not: `Votes` defaults to empty slices in getDuelResult, which the model
  treats as empty sequences.
- Map iteration order is not modelled. Scans over maps pick keys in any
  order (`:|`). Results whose order depends on it, such as the enterGame
  roster and the post lists, are specified up to that order.
- The repositories' `GetAll`, `GetByAuthor` and `GetByCategory` return
  pointers to the loop variable. Whether those pointers alias depends on the
  Go version. The model returns the values.
- The 64-bit width of the Go counters and points is not modelled; the model
  uses unbounded integers. The post view counter is modelled as a 32-bit
  value.
- Posts.PostRepo.GetAll, Posts.PostRepo.GetByAuthor and
  Posts.PostRepo.GetByCategory return the order of the keys as a ghost
  out-parameter, which is what lets their contracts name the posts.
- Comments.CommentRepo.Add and Posts.PostRepo.Add take the comment or post
  by value. The Go methods also write the new ID and creation time back into
  the caller's struct (`comment_repo.go` lines 65-66, `post_repo.go` lines
  79-82). For a post they also write the new comment and vote repositories
  back, which the caller's struct then shares with the stored copy. The
  model returns the ID and stores the completed value; the write-back and
  that sharing are not modelled.
- The forum handlers, middleware and session manager
  (`zdop/redditclone/pkg/handlers`, `middleware`, `session`) are not part of
  this model, and neither are the clients.

## Findings

| source | as written | input that shows it | evidently intended | confidence | as-written member | corrected member |
|---|---|---|---|---|---|---|
| zdop/redditclone/pkg/user/repo.go:37 | Register files the user under its generated ID; Authorize (line 46) looks the username up as a key | register "alice" with ID "id-1", then authorize "alice" with the right password: ErrNoUser | the user is filed under the key Authorize uses, so a registered user can log in | high, not executed | Users.RegisterThenAuthorizeExample | Users.UserRepo.RegisterByUsername |
| zdop/redditclone/pkg/posts/vote_repo.go:63-66 | Upvote and Downvote (lines 78-81) set the value on the range loop's copy of a stored vote | user "u1" upvotes, then downvotes: the stored vote stays 1 and the score stays 1 | the user's existing vote takes the new value, so the score becomes -1 | high, not executed | Votes.ChangedVoteIgnored | Votes.Recast |
| server/server.go:829 | the saveVote that closes a duel sleeps 2 s (line 803; sleepBetweenConst, line 20) before it clears the vote flags (lines 807-812) and tests for the round's last duel (line 817), then spawns a next-duel step (broadcastNewDuelVotingStarted, lines 834-838) that adds one to the duel counter whatever it is by then; saveVote has no repeat-vote guard | five players; the last vote of duel 3 closes it, and during that handler's 2 s sleep one of its voters votes again: every flag is still set, so duel 3 closes a second time; both handlers test the counter at line 817 while it is 3 and each spawns a step, and the two steps take the counter to 5, where every vote, getDuel and getDuelResult answers 405 and the round never ends (if all three voters vote again in that window, four steps take the counter to 7 and getDuel panics on Duels[6]) | a repeated vote in the same duel is refused with 406, so each duel closes once; failing that, a step moves the counter only from the duel that spawned it, so the round's last duel is played and its close ends the round | medium, not executed | GameState.DoubleCloseStalls | GameState.Game.AdvanceDuelFrom |
