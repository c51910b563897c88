/** One game room of the server (the Game record of server/server.go) and
    the handlers that act on it once the caller's session has led to it:
    seating, dealing the duels of a round, answering, voting, the delayed
    duel advance and round rollover, and the read-only queries. */
module GameState {

  import opened GameTypes

  /** The delayed step a vote leaves behind, if any. */
  datatype Deferred = Nothing | NextDuel | NextRound

  /** Reply of getDuel. */
  datatype DuelReply =
    | DuelRefused(status: int)
    | DuelShown(question: string, answers: seq<string>)

  /** Reply of getDuelResult. */
  datatype DuelResultReply =
    | ResultRefused(status: int)
    | ResultShown(question: string, usernames: seq<Username>, answers: seq<string>,
                  votesFor0: seq<Username>, votesFor1: seq<Username>)

  /** No two seated users share a username. */
  predicate NamesDistinct(seats: map<UserId, Username>)
  {
    forall u, v :: u in seats && v in seats && u != v ==> seats[u] != seats[v]
  }

  /** `owner` maps each seated username back to the seated user holding it. */
  predicate Inverse(seats: map<UserId, Username>, owner: map<Username, UserId>)
  {
    && (forall u :: u in seats ==> seats[u] in owner && owner[seats[u]] == u)
    && (forall n :: n in owner ==> owner[n] in seats && seats[owner[n]] == n)
  }

  lemma InverseNames(seats: map<UserId, Username>, owner: map<Username, UserId>)
    ensures Inverse(seats, owner) ==> owner.Keys == seats.Values && NamesDistinct(seats)
  {
  }

  /** A well-formed duel between two seated usernames. */
  predicate SeatedDuel(d: Duel, owner: map<Username, UserId>)
  {
    d.WellFormed() && d.usernames[0] in owner && d.usernames[1] in owner
  }

  /** The usernames of the shuffled seats, position by position. */
  function NamesInOrder(order: seq<UserId>, seats: map<UserId, Username>): (names: seq<Username>)
    requires forall i :: 0 <= i < |order| ==> order[i] in seats
    ensures |names| == |order|
  {
    seq(|order|, i requires 0 <= i < |order| => seats[order[i]])
  }

  /** The position of the `q`-th duel listing the user, the duel that the
      user's `q`-th answer goes to. */
  function AnswerDuel(username: Username, duels: seq<Duel>, q: nat): (k: nat)
    requires q < |DuelsByUsername(username, duels)|
    ensures k < |duels| && username in duels[k].usernames
  {
    var hits := DuelsByUsername(username, duels);
    assert hits[q] in hits;
    hits[q]
  }

  /** Shuffling seats with distinct usernames yields distinct usernames. */
  lemma ShuffledNamesDistinct(order: seq<UserId>, seats: map<UserId, Username>)
    requires IsShuffle(order, seats.Keys) && NamesDistinct(seats)
    ensures Distinct(NamesInOrder(order, seats))
  {
  }

  /** Every answer counter is 0, 1 or 2. */
  predicate CountersInRange(questionNum: map<UserId, int>)
  {
    forall u :: u in questionNum ==> 0 <= questionNum[u] <= 2
  }

  /** Every duel is a well-formed duel between seated usernames. */
  predicate DuelsSeated(duels: seq<Duel>, owner: map<Username, UserId>)
  {
    forall k :: 0 <= k < |duels| ==> SeatedDuel(duels[k], owner)
  }

  /** Neither participant of the duel is among its voters. */
  predicate NoSelfVote(d: Duel)
  {
    forall v, i :: 0 <= v < |d.votes| && 0 <= i < |d.votes[v]| ==> d.votes[v][i] !in d.usernames
  }

  /** No duel holds a vote from one of its own participants. */
  predicate DuelsSelfFree(duels: seq<Duel>)
  {
    forall k :: 0 <= k < |duels| ==> NoSelfVote(duels[k])
  }

  /** A vote from someone outside the duel keeps its voters free of its
      participants. */
  lemma WithVoteSelfFree(d: Duel, v: nat, voter: Username)
    requires NoSelfVote(d) && v < |d.votes| && voter !in d.usernames
    ensures NoSelfVote(d.WithVote(v, voter))
  {
    var d' := d.WithVote(v, voter);
    forall w, i | 0 <= w < |d'.votes| && 0 <= i < |d'.votes[w]|
      ensures d'.votes[w][i] !in d'.usernames
    {
      if w == v && i == |d.votes[v]| {
        assert d'.votes[w][i] == voter;
      } else {
        assert d'.votes[w][i] == d.votes[w][i];
      }
    }
  }

  /** Every closed round's table adds up to the worth of the votes its
      duels received, as recorded when it closed. */
  ghost predicate PastTalliesMatch(roundResult: map<int, map<Username, int>>, roundNum: nat,
                                   pastVotes: map<nat, nat>)
  {
    forall r: nat :: r in roundResult && r < roundNum ==>
      r in pastVotes && SumValues(roundResult[r]) == Worth(VotePoints(r), pastVotes[r])
  }

  /** Writing the current round's table leaves the closed rounds' tables,
      and so their match with their recorded votes, alone. */
  lemma PastTalliesKeep(roundResult: map<int, map<Username, int>>, roundNum: nat,
                        pastVotes: map<nat, nat>, table: map<Username, int>)
    requires PastTalliesMatch(roundResult, roundNum, pastVotes)
    ensures PastTalliesMatch(roundResult[roundNum := table], roundNum, pastVotes)
  {
    forall r: nat | r in roundResult[roundNum := table] && r < roundNum
      ensures r in pastVotes && SumValues(roundResult[roundNum := table][r]) == Worth(VotePoints(r), pastVotes[r])
    {
      assert roundResult[roundNum := table][r] == roundResult[r];
    }
  }

  /** Freshly dealt duels carry no votes at all. */
  lemma RoundDuelsSelfFree(order: seq<Username>, prompts: seq<string>)
    requires |order| <= |prompts|
    ensures DuelsSelfFree(RoundDuels(order, prompts))
  {
    var ds := RoundDuels(order, prompts);
    forall k | 0 <= k < |ds|
      ensures NoSelfVote(ds[k])
    {
      assert ds[k].votes == [[], []];
    }
  }

  /** Closing the current round records its votes, and its table joins the
      closed rounds whose tables match their recorded votes. */
  lemma CloseKeepsPastTallies(roundResult: map<int, map<Username, int>>, roundNum: nat,
                              gameResult: map<Username, int>, duels: seq<Duel>,
                              pastVotes: map<nat, nat>)
    requires PastTalliesMatch(roundResult, roundNum, pastVotes)
    requires TallyMatches(roundResult, roundNum, gameResult, duels)
    ensures PastTalliesMatch(roundResult, roundNum + 1, pastVotes[roundNum := VotesCast(duels)])
  {
  }

  /** No table belongs to a later round, and the current round's table adds
      up to the worth of the votes cast and equals the game result. */
  ghost predicate TallyMatches(roundResult: map<int, map<Username, int>>, roundNum: nat,
                               gameResult: map<Username, int>, duels: seq<Duel>)
  {
    && (forall r :: r in roundResult ==> r <= roundNum)
    && (roundNum in roundResult ==>
          && SumValues(roundResult[roundNum]) == Worth(VotePoints(roundNum), VotesCast(duels))
          && gameResult == roundResult[roundNum])
  }

  /** Seating a user under a username no other seat holds keeps `owner`
      the inverse of `seats`. */
  lemma SeatKeepsInverse(seats: map<UserId, Username>, owner: map<Username, UserId>,
                         userId: UserId, username: Username)
    requires Inverse(seats, owner)
    requires forall u :: u in seats && u != userId ==> seats[u] != username
    requires userId in seats ==> seats[userId] == username
    ensures Inverse(seats[userId := username], owner[username := userId])
  {
  }

  /** Seating a user under a username no other seat holds keeps every part
      of the room invariant that mentions the seats. */
  lemma SeatKeepsInvariant(seats: map<UserId, Username>, owner: map<Username, UserId>,
                           questionNum: map<UserId, int>, duels: seq<Duel>,
                           gameResult: map<Username, int>, userId: UserId, username: Username)
    requires Inverse(seats, owner) && CountersInRange(questionNum)
    requires DuelsSeated(duels, owner) && gameResult.Keys <= owner.Keys
    requires forall u :: u in seats && u != userId ==> seats[u] != username
    requires userId in seats ==> seats[userId] == username
    ensures Inverse(seats[userId := username], owner[username := userId])
    ensures CountersInRange(questionNum[userId := 0])
    ensures DuelsSeated(duels, owner[username := userId])
    ensures gameResult.Keys <= owner[username := userId].Keys
  {
    SeatKeepsInverse(seats, owner, userId, username);
    DuelsSeatedGrow(duels, owner, owner[username := userId]);
  }

  /** Duels between seated players stay so when more players are seated. */
  lemma DuelsSeatedGrow(duels: seq<Duel>, owner: map<Username, UserId>, owner': map<Username, UserId>)
    requires DuelsSeated(duels, owner) && owner.Keys <= owner'.Keys
    ensures DuelsSeated(duels, owner')
  {
  }

  /** A round dealt from a shuffle of the seats pairs seated usernames only. */
  lemma RoundDuelsSeated(order: seq<UserId>, seats: map<UserId, Username>,
                         owner: map<Username, UserId>, prompts: seq<string>)
    requires Inverse(seats, owner) && IsShuffle(order, seats.Keys)
    requires |order| <= |prompts|
    ensures DuelsSeated(RoundDuels(NamesInOrder(order, seats), prompts), owner)
  {
    var names := NamesInOrder(order, seats);
    var ds := RoundDuels(names, prompts);
    forall k | 0 <= k < |ds|
      ensures SeatedDuel(ds[k], owner)
    {
      var next := Successor(k, |order|);
      assert ds[k].usernames == [names[k], names[next]];
      assert order[k] in order && order[next] in order;
    }
  }

  /** A dealing into a round that has no table yet: the new zero table and
      the game result zeroed for every seat add up to the worth of the
      fresh, unvoted duels, and agree. */
  lemma DealKeepsTally(roundResult: map<int, map<Username, int>>, roundNum: nat,
                       gameResult: map<Username, int>, duels: seq<Duel>, names: set<Username>)
    requires forall r :: r in roundResult ==> r <= roundNum
    requires gameResult.Keys <= names
    requires VotesCast(duels) == 0
    ensures TallyMatches(roundResult[roundNum := ZeroOn(map[], names)], roundNum, ZeroOn(gameResult, names), duels)
  {
    ZeroTableSum(names);
    ZeroOnCovering(gameResult, names);
  }

  /** Dealing a round from a shuffle of the seats into a round without a
      table keeps the invariant: the fresh duels pair seated usernames, and
      the zero table agrees with the zeroed game result. */
  lemma DealKeepsInvariant(order: seq<UserId>, seats: map<UserId, Username>,
                           owner: map<Username, UserId>,
                           roundResult: map<int, map<Username, int>>, roundNum: nat,
                           gameResult: map<Username, int>)
    requires Inverse(seats, owner) && IsShuffle(order, seats.Keys)
    requires PromptsAvailable(roundNum, |order|)
    requires gameResult.Keys <= owner.Keys
    requires forall r :: r in roundResult ==> r <= roundNum
    ensures DuelsSeated(RoundDuels(NamesInOrder(order, seats), RoundPrompts(roundNum)), owner)
    ensures TallyMatches(roundResult[roundNum := ZeroOn(map[], seats.Values)], roundNum,
                         ZeroOn(gameResult, seats.Values),
                         RoundDuels(NamesInOrder(order, seats), RoundPrompts(roundNum)))
    ensures ZeroOn(gameResult, seats.Values).Keys <= owner.Keys
  {
    var dealt := RoundDuels(NamesInOrder(order, seats), RoundPrompts(roundNum));
    RoundDuelsSeated(order, seats, owner, RoundPrompts(roundNum));
    RoundDuelsUnvoted(NamesInOrder(order, seats), RoundPrompts(roundNum));
    InverseNames(seats, owner);
    DealKeepsTally(roundResult, roundNum, gameResult, dealt, seats.Values);
  }

  /** Writing an answer into a duel keeps the duels seated and the tallies
      matching: answers carry no votes. */
  lemma AnswerKeepsInvariant(duels: seq<Duel>, owner: map<Username, UserId>,
                             roundResult: map<int, map<Username, int>>, roundNum: nat,
                             gameResult: map<Username, int>, k: nat, p: nat, answer: string)
    requires DuelsSeated(duels, owner) && TallyMatches(roundResult, roundNum, gameResult, duels)
    requires k < |duels| && p < 2
    ensures DuelsSeated(duels[k := duels[k].WithAnswer(p, answer)], owner)
    ensures TallyMatches(roundResult, roundNum, gameResult, duels[k := duels[k].WithAnswer(p, answer)])
  {
    VotesCastUpdate(duels, k, duels[k].WithAnswer(p, answer));
  }

  /** Recording a vote for slot `v` of duel `k` and crediting that slot's
      participant with the round's points keeps the duels seated, the game
      result over seated names, and the current table equal to the worth of
      the votes cast. */
  lemma VoteKeepsInvariant(duels: seq<Duel>, owner: map<Username, UserId>,
                           roundResult: map<int, map<Username, int>>, roundNum: nat,
                           gameResult: map<Username, int>, k: nat, v: nat, voter: Username)
    requires DuelsSeated(duels, owner) && TallyMatches(roundResult, roundNum, gameResult, duels)
    requires gameResult.Keys <= owner.Keys
    requires k < |duels| && v < 2 && roundNum in roundResult
    requires DuelsSelfFree(duels) && voter !in duels[k].usernames
    ensures DuelsSeated(duels[k := duels[k].WithVote(v, voter)], owner)
    ensures DuelsSelfFree(duels[k := duels[k].WithVote(v, voter)])
    ensures AddPoints(gameResult, duels[k].usernames[v], VotePoints(roundNum)).Keys <= owner.Keys
    ensures TallyMatches(roundResult[roundNum := AddPoints(roundResult[roundNum], duels[k].usernames[v], VotePoints(roundNum))],
                         roundNum,
                         AddPoints(gameResult, duels[k].usernames[v], VotePoints(roundNum)),
                         duels[k := duels[k].WithVote(v, voter)])
  {
    var d := duels[k];
    WithVoteSelfFree(d, v, voter);
    AddVoterCount(d, v, voter);
    VotesCastUpdate(duels, k, d.WithVote(v, voter));
    AddPointsSum(roundResult[roundNum], d.usernames[v], VotePoints(roundNum));
  }

  class Game {
    const gameId: int
    /** The seated users (the game's sessions), each with the username it
        registered under; usernames never change after registration. */
    var seats: map<UserId, Username>
    /** Which seated user holds each seated username. */
    ghost var owner: map<Username, UserId>
    var isGameStarted: bool
    var duels: seq<Duel>
    /** Per seated user, how many of their two answers they have given. */
    var questionNum: map<UserId, int>
    /** Per seated user, whether they voted in the current duel. */
    var isVoted: map<UserId, bool>
    /** Per closed round, the number of votes its duels received; the duels
        themselves are dropped when the round closes. */
    ghost var pastVotes: map<nat, nat>
    var duelNum: nat
    var roundNum: nat
    var everyoneAnswered: bool
    var roundResult: map<int, map<Username, int>>
    var gameResult: map<Username, int>

    /** What every transition preserves: answer counters in {0, 1, 2}, duels
        between seated players with no participant among a duel's voters,
        and the tally of every round, the current one and each closed one,
        equal to the points of the votes cast in it. The duel counter has no
        upper bound: delayed next-duel steps may move it to MaxUsersCnt and
        past it. */
    ghost predicate Valid()
      reads this
    {
      && Inverse(seats, owner)
      && CountersInRange(questionNum)
      && DuelsSeated(duels, owner)
      && DuelsSelfFree(duels)
      && gameResult.Keys <= owner.Keys
      && TallyMatches(roundResult, roundNum, gameResult, duels)
      && PastTalliesMatch(roundResult, roundNum, pastVotes)
    }

    /** A new, empty room (enterGame, lines 404-418). */
    constructor (gameId: int)
      ensures Valid()
      ensures this.gameId == gameId && seats == map[] && !isGameStarted && duels == []
      ensures questionNum == map[] && isVoted == map[] && duelNum == 0 && roundNum == 0
      ensures !everyoneAnswered && roundResult == map[] && gameResult == map[]
    {
      this.gameId := gameId;
      seats := map[];
      owner := map[];
      isGameStarted := false;
      duels := [];
      questionNum := map[];
      isVoted := map[];
      pastVotes := map[];
      duelNum := 0;
      roundNum := 0;
      everyoneAnswered := false;
      roundResult := map[];
      gameResult := map[];
    }

    /** Seats the caller: keyed by user ID, with answer counter 0; the game
        starts when the roster reaches MaxUsersCnt. */
    method Seat(userId: UserId, username: Username) returns (full: bool)
      requires Valid()
      requires forall u :: u in seats && u != userId ==> seats[u] != username
      requires userId in seats ==> seats[userId] == username
      modifies this`seats, this`owner, this`questionNum, this`isGameStarted
      ensures Valid()
      ensures seats == old(seats)[userId := username]
      ensures questionNum == old(questionNum)[userId := 0]
      ensures full <==> |seats| == MaxUsersCnt
      ensures isGameStarted == (old(isGameStarted) || full)
    {
      SeatKeepsInvariant(seats, owner, questionNum, duels, gameResult, userId, username);
      seats := seats[userId := username];
      owner := owner[username := userId];
      questionNum := questionNum[userId := 0];
      full := |seats| == MaxUsersCnt;
      isGameStarted := isGameStarted || full;
    }

    /** generateDuels: one duel per seat of the shuffled order, appended. */
    method GenerateDuels(order: seq<UserId>)
      requires IsShuffle(order, seats.Keys)
      requires PromptsAvailable(roundNum, |order|)
      modifies this`duels
      ensures duels == old(duels) + RoundDuels(NamesInOrder(order, seats), RoundPrompts(roundNum))
    {
      ghost var names := NamesInOrder(order, seats);
      var base := PromptBase(roundNum);
      ghost var dealt := RoundDuels(names, RoundPrompts(roundNum));
      var n := |order|;
      var i := 0;
      while i < n
        invariant 0 <= i <= n
        invariant duels == old(duels) + dealt[..i]
      {
        var username1 := seats[order[i]];
        var username2 := seats[order[(i + 1) % n]];
        var duel := Duel(Questions[base + i], [username1, username2], ["", ""], [[], []]);
        assert names[i] == username1 && names[(i + 1) % n] == username2;
        assert dealt[i] == duel;
        TakeOneMore(dealt, i);
        duels := duels + [duel];
        i := i + 1;
      }
      assert dealt[..n] == dealt;
    }

    /** initResults: the round's table of zeros, created only when the round
        has none, and a zero for every seated username in the game result,
        written on every call. */
    method InitResults()
      modifies this`roundResult, this`gameResult
      ensures roundResult == if roundNum in old(roundResult) then old(roundResult)
                             else old(roundResult)[roundNum := ZeroOn(map[], seats.Values)]
      ensures gameResult == ZeroOn(old(gameResult), seats.Values)
    {
      if roundNum !in roundResult {
        var table := SetToZero(map[], seats.Values);
        roundResult := roundResult[roundNum := table];
      }
      gameResult := SetToZero(gameResult, seats.Values);
    }

    /** The dealing that opens a round: generateDuels then initResults. In a
        fresh round the tallies are zero, and the game result, zeroed for
        every seat, equals the round's table. */
    method DealRound(order: seq<UserId>)
      requires Valid()
      requires duels == [] && roundNum !in roundResult
      requires IsShuffle(order, seats.Keys)
      requires PromptsAvailable(roundNum, |order|)
      modifies this`duels, this`roundResult, this`gameResult
      ensures Valid()
      ensures duels == RoundDuels(NamesInOrder(order, seats), RoundPrompts(roundNum))
      ensures roundResult == old(roundResult)[roundNum := ZeroOn(map[], seats.Values)]
      ensures gameResult == roundResult[roundNum]
    {
      DealDuels(order);
      RoundDuelsUnvoted(NamesInOrder(order, seats), RoundPrompts(roundNum));
      OpenTables();
      ZeroOnCovering(old(gameResult), seats.Values);
    }

    /** generateDuels between rounds: the fresh duels pair seated players
        and carry no votes, so the room stays valid before any table
        exists for the round. */
    method DealDuels(order: seq<UserId>)
      requires Valid()
      requires duels == [] && roundNum !in roundResult
      requires IsShuffle(order, seats.Keys)
      requires PromptsAvailable(roundNum, |order|)
      modifies this`duels
      ensures Valid()
      ensures duels == RoundDuels(NamesInOrder(order, seats), RoundPrompts(roundNum))
    {
      ghost var dealt := RoundDuels(NamesInOrder(order, seats), RoundPrompts(roundNum));
      RoundDuelsSeated(order, seats, owner, RoundPrompts(roundNum));
      RoundDuelsSelfFree(NamesInOrder(order, seats), RoundPrompts(roundNum));
      GenerateDuels(order);
      assert duels == dealt;
    }

    /** initResults on unvoted duels of a round without a table: the zero
        table and the zeroed game result agree with the votes cast. */
    method OpenTables()
      requires Valid()
      requires roundNum !in roundResult && VotesCast(duels) == 0
      modifies this`roundResult, this`gameResult
      ensures Valid()
      ensures roundResult == old(roundResult)[roundNum := ZeroOn(map[], seats.Values)]
      ensures gameResult == ZeroOn(old(gameResult), seats.Values)
    {
      ghost var tables := roundResult[roundNum := ZeroOn(map[], seats.Values)];
      ghost var zeroed := ZeroOn(gameResult, seats.Values);
      InverseNames(seats, owner);
      DealKeepsTally(roundResult, roundNum, gameResult, duels, seats.Values);
      PastTalliesKeep(roundResult, roundNum, pastVotes, ZeroOn(map[], seats.Values));
      InitResults();
      assert roundResult == tables && gameResult == zeroed;
    }

    /** delayedStartGame: the "gamestarted" notice, then the first round. */
    method StartGame(order: seq<UserId>) returns (events: seq<Event>)
      requires Valid()
      requires duels == [] && roundNum !in roundResult
      requires IsShuffle(order, seats.Keys)
      requires PromptsAvailable(roundNum, |order|)
      modifies this`duels, this`roundResult, this`gameResult
      ensures Valid()
      ensures events == [GameStarted]
      ensures duels == RoundDuels(NamesInOrder(order, seats), RoundPrompts(roundNum))
      ensures roundResult == old(roundResult)[roundNum := ZeroOn(map[], seats.Values)]
      ensures gameResult == roundResult[roundNum]
    {
      events := [GameStarted];
      DealRound(order);
    }

    /** getQuestionHandler: the prompt of the duel the caller answers next,
        the counter-th duel that lists the caller. */
    function Question(userId: UserId): (prompt: string)
      reads this
      requires userId in seats
      requires 0 <= Count(questionNum, userId) < |DuelsByUsername(seats[userId], duels)|
      ensures exists k :: 0 <= k < |duels| && seats[userId] in duels[k].usernames && duels[k].question == prompt
    {
      duels[AnswerDuel(seats[userId], duels, Count(questionNum, userId))].question
    }

    /** saveAnswerHandler. */
    method SaveAnswer(userId: UserId, answer: string) returns (status: int, lastAnswer: bool, events: seq<Event>)
      requires Valid()
      requires userId in seats
      requires !Flag(isVoted, userId) && Count(questionNum, userId) != 2 ==>
                 Count(questionNum, userId) < |DuelsByUsername(seats[userId], duels)|
      modifies this`duels, this`questionNum, this`everyoneAnswered
      ensures Valid()
      ensures Flag(isVoted, userId) ==>
                status == ErrNotAcceptable && !lastAnswer && events == [] && unchanged(this)
      ensures !Flag(isVoted, userId) && old(Count(questionNum, userId)) == 2 ==>
                status == ErrMethodIsNotAllowed && !lastAnswer && events == [] && unchanged(this)
      ensures !Flag(isVoted, userId) && old(Count(questionNum, userId)) != 2 ==>
                var q := old(Count(questionNum, userId));
                var k := AnswerDuel(seats[userId], old(duels), q);
                var p := PosInDuel(seats[userId], old(duels)[k].usernames);
                && 0 <= p
                && status == StatusOk
                && lastAnswer == (q == 1)
                && duels == old(duels)[k := old(duels)[k].WithAnswer(p, answer)]
                && questionNum == old(questionNum)[userId := q + 1]
                && everyoneAnswered == (old(everyoneAnswered) || AllAnswered(seats.Keys, questionNum))
                && events == if AllAnswered(seats.Keys, questionNum) then [EveryoneAnswered] else []
    {
      if Flag(isVoted, userId) {
        return ErrNotAcceptable, false, [];
      }
      var q := Count(questionNum, userId);
      if q == 2 {
        return ErrMethodIsNotAllowed, false, [];
      }
      status := StatusOk;
      lastAnswer, events := AcceptAnswer(userId, answer);
    }

    /** The accepted branch of saveAnswerHandler: the answer goes to the
        caller's slot in the duel their counter points at, the counter moves
        on, and the answer phase closes once every seat has answered twice. */
    method AcceptAnswer(userId: UserId, answer: string) returns (lastAnswer: bool, events: seq<Event>)
      requires Valid()
      requires userId in seats
      requires Count(questionNum, userId) != 2
      requires 0 <= Count(questionNum, userId) < |DuelsByUsername(seats[userId], duels)|
      modifies this`duels, this`questionNum, this`everyoneAnswered
      ensures Valid()
      ensures var q := old(Count(questionNum, userId));
              var k := AnswerDuel(seats[userId], old(duels), q);
              var p := PosInDuel(seats[userId], old(duels)[k].usernames);
              && 0 <= p
              && lastAnswer == (q == 1)
              && duels == old(duels)[k := old(duels)[k].WithAnswer(p, answer)]
              && questionNum == old(questionNum)[userId := q + 1]
              && everyoneAnswered == (old(everyoneAnswered) || AllAnswered(seats.Keys, questionNum))
              && events == if AllAnswered(seats.Keys, questionNum) then [EveryoneAnswered] else []
    {
      var q := Count(questionNum, userId);
      WriteAnswer(userId, q, answer);
      lastAnswer := q == 1;
      events := CountAnswer(userId, q);
    }

    /** Moves the caller's answer counter on and closes the answer phase
        once every seat has answered twice. */
    method CountAnswer(userId: UserId, q: int) returns (events: seq<Event>)
      requires Valid()
      requires 0 <= q < 2
      modifies this`questionNum, this`everyoneAnswered
      ensures Valid()
      ensures questionNum == old(questionNum)[userId := q + 1]
      ensures everyoneAnswered == (old(everyoneAnswered) || AllAnswered(seats.Keys, questionNum))
      ensures events == if AllAnswered(seats.Keys, questionNum) then [EveryoneAnswered] else []
    {
      questionNum := questionNum[userId := q + 1];
      var everyone := ScanAnswered(seats.Keys, questionNum);
      events := [];
      if everyone {
        events := [EveryoneAnswered];
        everyoneAnswered := true;
      }
    }

    /** Stores the caller's `q`-th answer in their slot of the `q`-th duel
        listing them, and nowhere else. */
    method WriteAnswer(userId: UserId, q: int, answer: string)
      requires Valid()
      requires userId in seats && 0 <= q < |DuelsByUsername(seats[userId], duels)|
      modifies this`duels
      ensures Valid()
      ensures var k := AnswerDuel(seats[userId], old(duels), q);
              var p := PosInDuel(seats[userId], old(duels)[k].usernames);
              && 0 <= p
              && duels == old(duels)[k := old(duels)[k].WithAnswer(p, answer)]
    {
      var username := seats[userId];
      var k := AnswerDuel(username, duels, q);
      var p := PosInDuel(username, duels[k].usernames);
      assert SeatedDuel(duels[k], owner);
      var updated := duels[k].WithAnswer(p, answer);
      AnswerKeepsInvariant(duels, owner, roundResult, roundNum, gameResult, k, p, answer);
      duels := duels[k := updated];
    }

    /** getDuelHandler: the current duel's prompt and answers, once everyone
        has answered. */
    function GetDuel(): (r: DuelReply)
      reads this
      requires everyoneAnswered && duelNum != MaxUsersCnt ==> duelNum < |duels|
      ensures r.DuelRefused? <==> !everyoneAnswered || duelNum == MaxUsersCnt
      ensures r.DuelRefused? ==> r.status == ErrMethodIsNotAllowed
      ensures r.DuelShown? ==> r.question == duels[duelNum].question && r.answers == duels[duelNum].answers
    {
      if !everyoneAnswered then DuelRefused(ErrMethodIsNotAllowed)
      else if duelNum == MaxUsersCnt then DuelRefused(ErrMethodIsNotAllowed)
      else
        var duel := duels[duelNum];
        DuelShown(duel.question, duel.answers)
    }

    /** saveVoteHandler. A vote names the slot of the duel voted for. */
    method SaveVote(userId: UserId, vote: int) returns (status: int, events: seq<Event>, next: Deferred)
      requires Valid()
      requires userId in seats
      requires everyoneAnswered && duelNum != MaxUsersCnt ==> duelNum < |duels|
      requires everyoneAnswered && duelNum != MaxUsersCnt && seats[userId] !in duels[duelNum].usernames ==>
                 (vote == 0 || vote == 1) && roundNum in roundResult
      modifies this`duels, this`isVoted, this`roundResult, this`gameResult
      ensures Valid()
      ensures !everyoneAnswered || duelNum == MaxUsersCnt ==>
                status == ErrMethodIsNotAllowed && events == [] && next == Nothing && unchanged(this)
      ensures everyoneAnswered && duelNum != MaxUsersCnt && seats[userId] in old(duels)[duelNum].usernames ==>
                status == ErrNotAcceptable && events == [] && next == Nothing && unchanged(this)
      ensures everyoneAnswered && duelNum != MaxUsersCnt && seats[userId] !in old(duels)[duelNum].usernames ==>
                var d := old(duels)[duelNum];
                var target := d.usernames[vote];
                var points := VotePoints(roundNum);
                var table := old(roundResult)[roundNum];
                var marked := old(isVoted)[userId := true];
                var ended := AllVoted(seats, d, marked);
                && status == StatusOk
                && duels == old(duels)[duelNum := d.WithVote(vote, seats[userId])]
                && roundResult == old(roundResult)[roundNum := AddPoints(table, target, points)]
                && gameResult == AddPoints(old(gameResult), target, points)
                && isVoted == (if ended then ClearFlags(marked, seats.Keys) else marked)
                && events == (if !ended then []
                              else if duelNum + 1 != MaxUsersCnt then [DuelVotingEnded]
                              else [DuelVotingEnded, RoundVotingEnded])
                && next == (if !ended then Nothing
                            else if duelNum + 1 != MaxUsersCnt then NextDuel
                            else NextRound)
    {
      if !everyoneAnswered {
        return ErrMethodIsNotAllowed, [], Nothing;
      }
      if duelNum == MaxUsersCnt {
        return ErrMethodIsNotAllowed, [], Nothing;
      }
      var duel := duels[duelNum];
      var username := seats[userId];
      if duel.usernames[0] == username || duel.usernames[1] == username {
        return ErrNotAcceptable, [], Nothing;
      }
      assert SeatedDuel(duel, owner);
      assert username !in duel.usernames;
      status := StatusOk;
      events, next := AcceptVote(userId, vote);
    }

    /** The accepted branch of saveVoteHandler: the vote is recorded, and
        when it was the last one missing the duel's voting ends, with the
        move to the next duel or, after the round's last duel, to the next
        round left to a delayed step. */
    method AcceptVote(userId: UserId, vote: int) returns (events: seq<Event>, next: Deferred)
      requires Valid()
      requires userId in seats && duelNum < |duels| && (vote == 0 || vote == 1) && roundNum in roundResult
      requires seats[userId] !in duels[duelNum].usernames
      modifies this`duels, this`isVoted, this`roundResult, this`gameResult
      ensures Valid()
      ensures var d := old(duels)[duelNum];
              var target := d.usernames[vote];
              var points := VotePoints(roundNum);
              var marked := old(isVoted)[userId := true];
              var ended := AllVoted(seats, d, marked);
              && duels == old(duels)[duelNum := d.WithVote(vote, seats[userId])]
              && roundResult == old(roundResult)[roundNum := AddPoints(old(roundResult)[roundNum], target, points)]
              && gameResult == AddPoints(old(gameResult), target, points)
              && isVoted == (if ended then ClearFlags(marked, seats.Keys) else marked)
              && events == (if !ended then []
                            else if duelNum + 1 != MaxUsersCnt then [DuelVotingEnded]
                            else [DuelVotingEnded, RoundVotingEnded])
              && next == (if !ended then Nothing
                          else if duelNum + 1 != MaxUsersCnt then NextDuel
                          else NextRound)
    {
      var duel := duels[duelNum];
      RecordVote(userId, vote);
      var duelVotingEnded := CloseDuelVoting(duel);
      events, next := [], Nothing;
      if duelVotingEnded {
        if duelNum + 1 != MaxUsersCnt {
          events, next := [DuelVotingEnded], NextDuel;
        } else {
          events, next := [DuelVotingEnded, RoundVotingEnded], NextRound;
        }
      }
    }

    /** The end-of-duel check of saveVote: whether every seat outside the
        duel has voted, and if so all vote flags of the seats cleared. */
    method CloseDuelVoting(duel: Duel) returns (ended: bool)
      requires duel.WellFormed()
      modifies this`isVoted
      ensures ended == AllVoted(seats, duel, old(isVoted))
      ensures isVoted == if ended then ClearFlags(old(isVoted), seats.Keys) else old(isVoted)
    {
      ended := ScanVoted(seats, duel, isVoted);
      if ended {
        isVoted := ClearVoted(isVoted, seats.Keys);
      }
    }

    /** Records an accepted vote: the voter joins the voted slot's list, is
        marked as having voted, and the voted participant gains the vote's
        points in the round's table and in the game result. */
    method RecordVote(userId: UserId, vote: int)
      requires Valid()
      requires userId in seats && duelNum < |duels| && (vote == 0 || vote == 1) && roundNum in roundResult
      requires seats[userId] !in duels[duelNum].usernames
      modifies this`duels, this`isVoted, this`roundResult, this`gameResult
      ensures Valid()
      ensures duels == old(duels)[duelNum := old(duels)[duelNum].WithVote(vote, seats[userId])]
      ensures isVoted == old(isVoted)[userId := true]
      ensures roundResult == old(roundResult)[roundNum := AddPoints(old(roundResult)[roundNum], old(duels)[duelNum].usernames[vote], VotePoints(roundNum))]
      ensures gameResult == AddPoints(old(gameResult), old(duels)[duelNum].usernames[vote], VotePoints(roundNum))
    {
      var duel := duels[duelNum];
      var target := duel.usernames[vote];
      var points := VotePoints(roundNum);
      VoteKeepsInvariant(duels, owner, roundResult, roundNum, gameResult, duelNum, vote, seats[userId]);
      PastTalliesKeep(roundResult, roundNum, pastVotes, AddPoints(roundResult[roundNum], target, points));
      duels := duels[duelNum := duel.WithVote(vote, seats[userId])];
      isVoted := isVoted[userId := true];
      roundResult := roundResult[roundNum := AddPoints(roundResult[roundNum], target, points)];
      gameResult := AddPoints(gameResult, target, points);
    }

    /** broadcastNewDuelVotingStarted: the delayed move to the next duel.
        Whether the duel was the round's last is tested once, when the step
        is spawned; the step itself moves the counter on whatever it now
        is. */
    method AdvanceDuel() returns (events: seq<Event>)
      requires Valid()
      modifies this`duelNum
      ensures Valid()
      ensures duelNum == old(duelNum) + 1
      ensures events == [NewDuelVotingStarted]
    {
      events := [NewDuelVotingStarted];
      duelNum := duelNum + 1;
    }

    /** The delayed move to the next duel as evidently meant: the step
        remembers the duel `startedAt` whose close spawned it, and moves the
        counter only while that duel is still the current one. A second
        close of the same duel then cannot skip the round's last duel. */
    method AdvanceDuelFrom(startedAt: nat) returns (events: seq<Event>)
      requires Valid()
      modifies this`duelNum
      ensures Valid()
      ensures duelNum == if old(duelNum) == startedAt then startedAt + 1 else old(duelNum)
      ensures events == if old(duelNum) == startedAt then [NewDuelVotingStarted] else []
      ensures old(duelNum) < MaxUsersCnt && startedAt + 1 != MaxUsersCnt ==> duelNum < MaxUsersCnt
    {
      events := [];
      if duelNum == startedAt {
        events := [NewDuelVotingStarted];
        duelNum := duelNum + 1;
      }
    }

    /** broadcastNewRoundStartedOrGameEnded up to the dealing: the next round
        number, "gameended" exactly when it reaches MaxRoundsCnt, the first
        duel, the answer phase reopened, every seat's counter back to 0 and
        the duel list emptied. DealRound then completes the rollover. */
    method EndRound() returns (events: seq<Event>)
      requires Valid()
      modifies this`roundNum, this`duelNum, this`everyoneAnswered, this`questionNum, this`duels
      modifies this`pastVotes
      ensures Valid()
      ensures pastVotes == old(pastVotes)[old(roundNum) := VotesCast(old(duels))]
      ensures roundNum == old(roundNum) + 1
      ensures events == if roundNum == MaxRoundsCnt then [GameEnded] else [NewRoundStarted]
      ensures duelNum == 0 && !everyoneAnswered && duels == []
      ensures questionNum == ZeroOn(old(questionNum), seats.Keys)
      ensures roundNum !in roundResult
    {
      CloseKeepsPastTallies(roundResult, roundNum, gameResult, duels, pastVotes);
      pastVotes := pastVotes[roundNum := VotesCast(duels)];
      roundNum := roundNum + 1;
      if roundNum == MaxRoundsCnt {
        events := [GameEnded];
      } else {
        events := [NewRoundStarted];
      }
      duelNum := 0;
      everyoneAnswered := false;
      questionNum := SetToZero(questionNum, seats.Keys);
      duels := [];
    }

    /** broadcastNewRoundStartedOrGameEnded as a whole: the round closes
        and the next one is dealt from a fresh shuffle, with a zero table
        that the game result, zeroed again, equals. */
    method RollOver(order: seq<UserId>) returns (events: seq<Event>)
      requires Valid()
      requires IsShuffle(order, seats.Keys)
      requires PromptsAvailable(roundNum + 1, |order|)
      modifies this`roundNum, this`duelNum, this`everyoneAnswered, this`questionNum, this`duels
      modifies this`pastVotes, this`roundResult, this`gameResult
      ensures Valid()
      ensures roundNum == old(roundNum) + 1
      ensures events == if roundNum == MaxRoundsCnt then [GameEnded] else [NewRoundStarted]
      ensures duelNum == 0 && !everyoneAnswered
      ensures questionNum == ZeroOn(old(questionNum), seats.Keys)
      ensures duels == RoundDuels(NamesInOrder(order, seats), RoundPrompts(roundNum))
      ensures roundResult == old(roundResult)[roundNum := ZeroOn(map[], seats.Values)]
      ensures gameResult == roundResult[roundNum]
    {
      events := EndRound();
      DealRound(order);
    }

    /** getDuelResultHandler: the current duel with the voters of each slot. */
    function GetDuelResult(): (r: DuelResultReply)
      reads this
      requires duelNum != MaxUsersCnt ==> duelNum < |duels| && duels[duelNum].WellFormed()
      ensures r.ResultRefused? <==> duelNum == MaxUsersCnt
      ensures r.ResultRefused? ==> r.status == ErrMethodIsNotAllowed
      ensures r.ResultShown? ==>
                && r.question == duels[duelNum].question
                && r.usernames == duels[duelNum].usernames
                && r.answers == duels[duelNum].answers
                && r.votesFor0 == duels[duelNum].votes[0]
                && r.votesFor1 == duels[duelNum].votes[1]
    {
      if duelNum == MaxUsersCnt then ResultRefused(ErrMethodIsNotAllowed)
      else
        var duel := duels[duelNum];
        ResultShown(duel.question, duel.usernames, duel.answers, duel.votes[0], duel.votes[1])
    }

    /** getRoundResultHandler: the current round's table, whose points add
        up to the round's points per vote times the votes cast in it. */
    function GetRoundResult(): (points: map<Username, int>)
      reads this
      ensures roundNum !in roundResult ==> points == map[]
      ensures Valid() && roundNum in roundResult ==>
                SumValues(points) == VotePoints(roundNum) * VotesCast(duels)
      ensures Valid() ==> points.Keys <= seats.Values
    {
      InverseNames(seats, owner);
      WorthIsProduct(VotePoints(roundNum), VotesCast(duels));
      if roundNum in roundResult then roundResult[roundNum] else map[]
    }

    /** getGameResultHandler. Since every dealing zeroes it for all seats,
        the game result always equals the current round's table. */
    function GetGameResult(): (points: map<Username, int>)
      reads this
      ensures Valid() && roundNum in roundResult ==> points == GetRoundResult()
      ensures Valid() ==> points.Keys <= seats.Values
    {
      InverseNames(seats, owner);
      gameResult
    }
  }

  /** The stalled round, as the code is written. The handler whose vote
      closes a duel sleeps for sleepBetweenConst (2 s) before it clears the
      vote flags and tests for the round's last duel; a voter of that duel
      who votes again during the sleep finds every flag still set, so
      SaveVote, which has no repeat-vote guard, closes the duel a second
      time. Both handlers test the counter while it still names the duel
      just before the last one, and each spawns a next-duel step. Both
      steps move the counter, which lands on MaxUsersCnt: from then on every
      vote and every duel or duel-result request is refused with 405, and no
      vote can schedule the round's end. The model runs a handler as one
      step, so the sleep inside it is not modelled; this exhibit starts from
      the two spawned steps. */
  method DoubleCloseStalls(g: Game, userId: UserId, vote: int) returns (status: int, next: Deferred)
    requires g.Valid() && g.everyoneAnswered && g.duelNum == MaxUsersCnt - 2
    requires userId in g.seats
    modifies g
    ensures g.Valid() && g.duelNum == MaxUsersCnt
    ensures status == ErrMethodIsNotAllowed && next == Nothing
    ensures g.GetDuel() == DuelRefused(ErrMethodIsNotAllowed)
    ensures g.GetDuelResult() == ResultRefused(ErrMethodIsNotAllowed)
  {
    var first := g.AdvanceDuel();
    var second := g.AdvanceDuel();
    var events;
    status, events, next := g.SaveVote(userId, vote);
  }

  /** The same double close with the corrected next-duel step: the second
      step finds the counter already moved and does nothing, the round's
      last duel is shown, and a vote that closes it schedules the round's
      end. */
  method DoubleCloseReachesLastDuel(g: Game, userId: UserId, vote: int) returns (status: int, next: Deferred)
    requires g.Valid() && g.everyoneAnswered && g.duelNum == MaxUsersCnt - 2
    requires MaxUsersCnt - 1 < |g.duels| && g.roundNum in g.roundResult
    requires userId in g.seats && g.seats[userId] !in g.duels[MaxUsersCnt - 1].usernames
    requires vote == 0 || vote == 1
    modifies g
    ensures g.Valid() && g.duelNum == MaxUsersCnt - 1 && g.duelNum < |g.duels|
    ensures status == StatusOk && next != NextDuel
    ensures g.GetDuel().DuelShown?
    ensures g.GetDuelResult().ResultShown?
  {
    var first := g.AdvanceDuelFrom(MaxUsersCnt - 2);
    var second := g.AdvanceDuelFrom(MaxUsersCnt - 2);
    var events;
    status, events, next := g.SaveVote(userId, vote);
  }
}
