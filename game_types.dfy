/** Values, constants and side-effect-free helpers of the game server
    (server/server.go): the records, the prompt pool, the duel pairing of a
    round, the duel lookups by username, and the score tallies. */
module GameTypes {

  type UserId = string
  type Username = string

  /** A connection handle (a `net.Conn` of the command or the notification
      stream); only its identity matters here. */
  type Conn = nat

  const MaxUsersCnt: nat := 5
  const MaxRoundsCnt: nat := 3

  const StatusOk: int := 200
  const ErrAlreadyRegistered: int := 409
  const ErrInvalidData: int := 401
  const ErrAlreadyLoggedIn: int := 403
  const ErrMethodIsNotAllowed: int := 405
  const ErrNotAcceptable: int := 406

  /** The fixed prompt pool the duels of every round draw from. */
  const Questions: seq<string> := [
    "В плохом офисе вид из окна на _____",
    "Без чего не обходится деревенская свадьба?",
    "О чем мечтает робот-пылесос, пока заряжыется?",
    "Взятка?! Разве считается взяткой то, что я просто дал судье _____?",
    "Название планеты, полностью покрытой кукурузой",
    "Удивительная вещь, которую можно найти застрявшей в паутине в вашем подвале",
    "Даже за 10 миллионов рублей ты не наколешь эту фразу у себя на спине",
    "Водителям на зметку: Не стоит управлять машиной и _____ одновременно",
    "Твоя квартира рельно большая, если у тебя есть комната специально для _____",
    "В будущем Америка переименуется в _____"
  ]

  datatype Option<T> = None | Some(value: T)

  datatype User = User(username: Username, password: string, userId: UserId)

  /** A live binding of a user to a pair of connections; `gameId` is -1 while
      the user sits in no game. */
  datatype Session = Session(userId: UserId, connReq: Conn, connBrcast: Conn, gameId: int)

  /** The claims of an issued token. Signing and verification are outside
      the model: a request arrives with the verification outcome instead. */
  datatype Token = Token(userId: UserId, username: Username)

  /** A duel: a prompt, the two participants, their answers, and for each
      participant position the usernames that voted for it. */
  datatype Duel = Duel(question: string, usernames: seq<Username>, answers: seq<string>, votes: seq<seq<Username>>)
  {
    predicate WellFormed()
    {
      |usernames| == 2 && |answers| == 2 && |votes| == 2
    }

    /** The duel with answer slot `p` holding `answer`. */
    function WithAnswer(p: nat, answer: string): Duel
      requires p < |answers|
    {
      this.(answers := answers[p := answer])
    }

    /** The duel with `voter` added to the voters of slot `v`. */
    function WithVote(v: nat, voter: Username): Duel
      requires v < |votes|
    {
      this.(votes := votes[v := votes[v] + [voter]])
    }
  }

  /** Notifications pushed to every seat of a game. */
  datatype Event =
    | NewPlayer(username: Username)
    | GameStarted
    | EveryoneAnswered
    | DuelVotingEnded
    | NewDuelVotingStarted
    | RoundVotingEnded
    | NewRoundStarted
    | GameEnded

  /** The value of a Go `map[string]int64` entry: 0 when the key is absent. */
  function Count<K>(m: map<K, int>, k: K): int
  {
    if k in m then m[k] else 0
  }

  /** The value of a Go `map[string]bool` entry: false when the key is absent. */
  predicate Flag<K>(m: map<K, bool>, k: K)
  {
    k in m && m[k]
  }

  /** Taking one more element of a sequence appends that element. */
  lemma TakeOneMore<T>(s: seq<T>, i: nat)
    requires i < |s|
    ensures s[..i + 1] == s[..i] + [s[i]]
  {
  }

  /** `order` lists every seated user exactly once: a shuffle of the roster. */
  predicate IsShuffle(order: seq<UserId>, seated: set<UserId>)
  {
    && (forall i, j :: 0 <= i < j < |order| ==> order[i] != order[j])
    && (forall u :: u in order ==> u in seated)
    && (forall u :: u in seated ==> u in order)
  }

  predicate Distinct(s: seq<string>)
  {
    forall i, j :: 0 <= i < j < |s| ==> s[i] != s[j]
  }

  /** Number of the first prompt of a round. */
  function PromptBase(roundNum: nat): nat
  {
    roundNum * MaxRoundsCnt
  }

  /** Points a vote is worth in a round. */
  function VotePoints(roundNum: nat): nat
  {
    10 * (roundNum + 1)
  }

  /** What `votes` votes of `points` points each are worth in total. */
  function Worth(points: nat, votes: nat): nat
  {
    if votes == 0 then 0 else Worth(points, votes - 1) + points
  }

  /** Worth is the product of the two. */
  lemma {:induction false} WorthIsProduct(points: nat, votes: nat)
    ensures Worth(points, votes) == points * votes
  {
    if votes > 0 {
      WorthIsProduct(points, votes - 1);
    }
  }

  /** The prompt indices of a round with `n` duels stay inside the pool. */
  predicate PromptsAvailable(roundNum: nat, n: nat)
  {
    PromptBase(roundNum) + n <= |Questions|
  }

  /** The prompts a round draws from: the pool from the round's first
      prompt on. */
  function RoundPrompts(roundNum: nat): (prompts: seq<string>)
    requires PromptBase(roundNum) <= |Questions|
    ensures |prompts| == |Questions| - PromptBase(roundNum)
    ensures forall k :: 0 <= k < |prompts| ==> prompts[k] == Questions[PromptBase(roundNum) + k]
  {
    Questions[PromptBase(roundNum)..]
  }

  /** The duels of one round: duel `i` pairs the user at position `i` of the
      shuffled order with the user at position `i + 1` (wrapping around) and
      asks prompt `i` of the round's prompts; answers start empty and
      nobody has voted. */
  function RoundDuels(order: seq<Username>, prompts: seq<string>): (ds: seq<Duel>)
    requires |order| <= |prompts|
    ensures |ds| == |order|
    ensures forall k :: 0 <= k < |ds| ==> ds[k].WellFormed()
  {
    var n := |order|;
    seq(n, k requires 0 <= k < n =>
      Duel(prompts[k], [order[k], order[(k + 1) % n]], ["", ""], [[], []]))
  }

  /** The position after `k` in a ring of `n`: the partner index of duel
      `k`, written without the modulo. */
  function Successor(k: nat, n: nat): (r: nat)
    requires k < n
    ensures r == (k + 1) % n
  {
    if k + 1 == n then 0 else k + 1
  }

  /** One entry `k` for each position of `usernames` that holds `username`. */
  function SlotHits(username: Username, usernames: seq<Username>, k: nat): (r: seq<nat>)
    ensures forall x :: x in r ==> x == k
    ensures |r| <= |usernames|
    ensures r == [] <==> username !in usernames
  {
    if usernames == [] then []
    else (if usernames[0] == username then [k] else []) + SlotHits(username, usernames[1..], k)
  }

  /** getDuelsByUsername: the positions in `duels` of the duels in which the
      user takes part, in list order, a duel listed once per slot the user
      holds in it. Positions stand for the Go duel pointers. */
  function DuelsByUsername(username: Username, duels: seq<Duel>): (r: seq<nat>)
    ensures forall x :: x in r ==> x < |duels| && username in duels[x].usernames
  {
    if duels == [] then []
    else
      var n := |duels|;
      DuelsByUsername(username, duels[..n - 1]) + SlotHits(username, duels[n - 1].usernames, n - 1)
  }

  /** Conversely, every duel the user takes part in is listed. */
  lemma {:induction false} DuelsByUsernameComplete(username: Username, duels: seq<Duel>, k: nat)
    requires k < |duels| && username in duels[k].usernames
    ensures k in DuelsByUsername(username, duels)
  {
    var n := |duels|;
    if k < n - 1 {
      assert duels[..n - 1][k] == duels[k];
      DuelsByUsernameComplete(username, duels[..n - 1], k);
    } else {
      var hits := SlotHits(username, duels[n - 1].usernames, n - 1);
      assert hits != [];
      assert hits[0] in hits;
    }
  }

  /** getPosInDuelByUsername: the first slot holding the username, or -1. */
  function PosInDuel(username: Username, usernames: seq<Username>): (p: int)
    ensures -1 <= p < |usernames|
    ensures p == -1 <==> username !in usernames
    ensures 0 <= p ==> usernames[p] == username
    ensures forall j :: 0 <= j < p ==> usernames[j] != username
  {
    if usernames == [] then -1
    else if usernames[0] == username then 0
    else
      var p := PosInDuel(username, usernames[1..]);
      if p == -1 then -1 else p + 1
  }

  lemma SlotHitsPair(username: Username, a: Username, b: Username, k: nat)
    ensures SlotHits(username, [a, b], k) == (if a == username then [k] else []) + (if b == username then [k] else [])
  {
    assert [a, b][1..] == [b];
    assert [b][1..] == [];
  }

  /** What getDuelsByUsername yields on a prefix of a round's duels, for the
      user at position `i` of the shuffled order. */
  function ExpectedDuels(n: nat, i: nat, m: nat): seq<nat>
    requires 2 <= n && i < n
  {
    if i == 0 then (if m >= 1 then [0] else []) + (if m >= n then [n - 1] else [])
    else (if m >= i then [i - 1] else []) + (if m >= i + 1 then [i] else [])
  }

  /** The slots the player at position `i` holds in duel `k` of a round. */
  lemma HitsInRoundDuel(order: seq<Username>, prompts: seq<string>, i: nat, k: nat)
    requires |order| <= |prompts|
    requires Distinct(order) && 2 <= |order| && i < |order| && k < |order|
    ensures SlotHits(order[i], RoundDuels(order, prompts)[k].usernames, k)
         == (if k == i then [k] else []) + (if Successor(k, |order|) == i then [k] else [])
  {
    var n := |order|;
    var next := Successor(k, n);
    assert RoundDuels(order, prompts)[k].usernames == [order[k], order[next]];
    SlotHitsPair(order[i], order[k], order[next], k);
    assert order[k] == order[i] <==> k == i;
    assert order[next] == order[i] <==> next == i;
  }

  lemma ExpectedDuelsStep(n: nat, i: nat, k: nat)
    requires 2 <= n && i < n && k < n
    ensures ExpectedDuels(n, i, k + 1)
         == ExpectedDuels(n, i, k) + ((if k == i then [k] else []) + (if Successor(k, n) == i then [k] else []))
  {
    if i == 0 {
      if k == 0 {
      } else if k < n - 1 {
      } else {
      }
    } else {
      if k + 1 < i {
      } else if k + 1 == i {
      } else if k == i {
      } else {
      }
    }
  }

  /** The duels of a prefix one longer add the slots of its last duel. */
  lemma DuelsByUsernameTake(username: Username, duels: seq<Duel>, m: nat)
    requires 0 < m <= |duels|
    ensures DuelsByUsername(username, duels[..m])
         == DuelsByUsername(username, duels[..m - 1]) + SlotHits(username, duels[m - 1].usernames, m - 1)
  {
    assert duels[..m][..m - 1] == duels[..m - 1];
  }

  lemma {:induction false} DuelsByUsernamePrefix(order: seq<Username>, prompts: seq<string>, i: nat, m: nat)
    requires |order| <= |prompts|
    requires Distinct(order) && 2 <= |order| && i < |order| && m <= |order|
    ensures DuelsByUsername(order[i], RoundDuels(order, prompts)[..m]) == ExpectedDuels(|order|, i, m)
  {
    var n := |order|;
    var ds := RoundDuels(order, prompts);
    if m == 0 {
      assert ds[..0] == [];
    } else {
      var k := m - 1;
      DuelsByUsernamePrefix(order, prompts, i, k);
      DuelsByUsernameTake(order[i], ds, m);
      HitsInRoundDuel(order, prompts, i, k);
      ExpectedDuelsStep(n, i, k);
    }
  }

  /** With at least two distinct players, every player takes part in exactly
      two duels of a round, listed in order: the duel they open and the duel
      of the player before them (for the first player, the last duel). */
  lemma DuelsOfPlayer(order: seq<Username>, prompts: seq<string>, i: nat)
    requires |order| <= |prompts|
    requires Distinct(order) && 2 <= |order| && i < |order|
    ensures DuelsByUsername(order[i], RoundDuels(order, prompts)) == (if i == 0 then [0, |order| - 1] else [i - 1, i])
  {
    var ds := RoundDuels(order, prompts);
    DuelsByUsernamePrefix(order, prompts, i, |order|);
    assert ds[..|order|] == ds;
  }

  /** The slot the player at position `i` answers into in duel `k`: slot 0 in
      the duel they open, slot 1 in the duel of the player before them. */
  lemma PosInRoundDuel(order: seq<Username>, prompts: seq<string>, i: nat, k: nat)
    requires |order| <= |prompts|
    requires Distinct(order) && 2 <= |order| && i < |order| && k < |order|
    ensures k == i ==> PosInDuel(order[i], RoundDuels(order, prompts)[k].usernames) == 0
    ensures Successor(k, |order|) == i ==> PosInDuel(order[i], RoundDuels(order, prompts)[k].usernames) == 1
  {
    var n := |order|;
    var us := RoundDuels(order, prompts)[k].usernames;
    assert us == [order[k], order[Successor(k, n)]];
    if Successor(k, n) == i {
      assert us[0] != order[i];
    }
  }

  /** Where the `q`-th answer of the player at position `i` is written:
      the duel and slot saveAnswer computes from the round's duels. */
  function AnswerTarget(order: seq<Username>, prompts: seq<string>, i: nat, q: nat): (t: (int, int))
    requires |order| <= |prompts|
    requires i < |order|
  {
    var ds := RoundDuels(order, prompts);
    var hits := DuelsByUsername(order[i], ds);
    if q < |hits| then
      assert hits[q] in hits;
      (hits[q] as int, PosInDuel(order[i], ds[hits[q]].usernames))
    else (-1, -1)
  }

  /** The targets of AnswerTarget, written out. */
  function ExplicitTarget(n: nat, i: nat, q: nat): (int, int)
    requires 2 <= n && i < n
  {
    if i == 0 then (if q == 0 then (0, 0) else (n - 1, 1))
    else (if q == 0 then (i - 1, 1) else (i, 0))
  }

  /** The player position and answer number that fill slot `s` of duel `k`. */
  function SlotOwner(n: nat, k: nat, s: int): (o: (nat, nat))
    requires 2 <= n && k < n
    ensures o.0 < n && o.1 < 2
  {
    if s == 0 then (k, if k == 0 then 0 else 1)
    else if k == n - 1 then (0, 1)
    else (k + 1, 0)
  }

  lemma AnswerTargetExplicit(order: seq<Username>, prompts: seq<string>, i: nat, q: nat)
    requires |order| <= |prompts|
    requires Distinct(order) && 2 <= |order| && i < |order| && q < 2
    ensures AnswerTarget(order, prompts, i, q) == ExplicitTarget(|order|, i, q)
  {
    var ds := RoundDuels(order, prompts);
    var hits := DuelsByUsername(order[i], ds);
    DuelsOfPlayer(order, prompts, i);
    var t := ExplicitTarget(|order|, i, q);
    assert q < |hits| && hits[q] == t.0;
    PosInRoundDuel(order, prompts, i, t.0);
    assert PosInDuel(order[i], ds[t.0].usernames) == t.1;
  }

  /** Each answer of each player lands in a slot of a duel of the round, and
      that slot belongs to nobody else: its owner is that player and answer. */
  lemma TargetThenOwner(order: seq<Username>, prompts: seq<string>, i: nat, q: nat)
    requires |order| <= |prompts|
    requires Distinct(order) && 2 <= |order| && i < |order| && q < 2
    ensures 0 <= AnswerTarget(order, prompts, i, q).0 < |order|
    ensures 0 <= AnswerTarget(order, prompts, i, q).1 < 2
    ensures SlotOwner(|order|, AnswerTarget(order, prompts, i, q).0, AnswerTarget(order, prompts, i, q).1) == (i, q)
  {
    AnswerTargetExplicit(order, prompts, i, q);
  }

  /** Every slot of every duel of the round is the target of its owner's
      answer: together with TargetThenOwner, answers and slots are in
      one-to-one correspondence, so each slot is written exactly once. */
  lemma OwnerThenTarget(order: seq<Username>, prompts: seq<string>, k: nat, s: int)
    requires |order| <= |prompts|
    requires Distinct(order) && 2 <= |order| && k < |order| && 0 <= s < 2
    ensures AnswerTarget(order, prompts, SlotOwner(|order|, k, s).0, SlotOwner(|order|, k, s).1) == (k, s)
  {
    var o := SlotOwner(|order|, k, s);
    AnswerTargetExplicit(order, prompts, o.0, o.1);
  }

  /** Number of votes recorded in one duel. */
  function DuelVotes(d: Duel): nat
  {
    if d.WellFormed() then |d.votes[0]| + |d.votes[1]| else 0
  }

  /** Total number of votes recorded in a list of duels. */
  function VotesCast(duels: seq<Duel>): nat
  {
    if duels == [] then 0
    else VotesCast(duels[..|duels| - 1]) + DuelVotes(duels[|duels| - 1])
  }

  lemma VotesCastSnoc(duels: seq<Duel>, d: Duel)
    ensures VotesCast(duels + [d]) == VotesCast(duels) + DuelVotes(d)
  {
    assert (duels + [d])[..|duels|] == duels;
  }

  /** Replacing duel `k` changes the vote count by the difference of the two
      duels' vote counts. */
  lemma {:induction false} VotesCastUpdate(duels: seq<Duel>, k: nat, d: Duel)
    requires k < |duels|
    ensures VotesCast(duels[k := d]) == VotesCast(duels) - DuelVotes(duels[k]) + DuelVotes(d)
  {
    var n := |duels|;
    var init := duels[..n - 1];
    assert duels == init + [duels[n - 1]];
    VotesCastSnoc(init, duels[n - 1]);
    if k == n - 1 {
      assert duels[k := d] == init + [d];
      VotesCastSnoc(init, d);
    } else {
      VotesCastUpdate(init, k, d);
      assert duels[k := d] == init[k := d] + [duels[n - 1]];
      VotesCastSnoc(init[k := d], duels[n - 1]);
    }
  }

  /** Recording one more voter in one slot of a duel adds one vote. */
  lemma AddVoterCount(d: Duel, v: nat, voter: Username)
    requires d.WellFormed() && v < 2
    ensures DuelVotes(d.WithVote(v, voter)) == DuelVotes(d) + 1
  {
  }

  /** Appending the fresh duels of a new round leaves the vote count alone. */
  lemma {:induction false} VotesCastAppendFresh(duels: seq<Duel>, added: seq<Duel>)
    requires forall k :: 0 <= k < |added| ==> added[k].votes == [[], []]
    ensures VotesCast(duels + added) == VotesCast(duels)
  {
    if added != [] {
      var m := |added|;
      assert duels + added == (duels + added[..m - 1]) + [added[m - 1]];
      VotesCastSnoc(duels + added[..m - 1], added[m - 1]);
      VotesCastAppendFresh(duels, added[..m - 1]);
      assert added[m - 1].votes == [[], []];
      assert DuelVotes(added[m - 1]) == 0;
      assert VotesCast(duels + added[..m - 1]) == VotesCast(duels);
    } else {
      assert duels + added == duels;
    }
  }
  /** A freshly dealt round carries no votes. */
  lemma RoundDuelsUnvoted(order: seq<Username>, prompts: seq<string>)
    requires |order| <= |prompts|
    ensures VotesCast(RoundDuels(order, prompts)) == 0
  {
    var ds := RoundDuels(order, prompts);
    VotesCastAppendFresh([], ds);
    assert [] + ds == ds;
  }


  /** Sum of the points in a tally. */
  ghost function SumValues<K>(m: map<K, int>): int
    decreases |m|
  {
    if m == map[] then 0
    else
      var k :| k in m;
      m[k] + SumValues(m - {k})
  }

  /** The sum does not depend on which key is taken out first. */
  lemma {:induction false} SumValuesRemove<K>(m: map<K, int>, k: K)
    requires k in m
    ensures SumValues(m) == m[k] + SumValues(m - {k})
    decreases |m|
  {
    var j :| j in m && SumValues(m) == m[j] + SumValues(m - {j});
    if j != k {
      var mj, mk := m - {j}, m - {k};
      assert |mj| < |m| && |mk| < |m|;
      SumValuesRemove(mj, k);
      SumValuesRemove(mk, j);
      assert mj - {k} == mk - {j};
    }
  }

  /** A tally with `points` more for `k` (counted from 0 when absent). */
  function AddPoints<K>(m: map<K, int>, k: K, points: int): (r: map<K, int>)
    ensures r.Keys == m.Keys + {k}
    ensures Count(r, k) == Count(m, k) + points
    ensures forall j :: j in m && j != k ==> r[j] == m[j]
  {
    m[k := Count(m, k) + points]
  }

  /** Adding points to one entry adds them to the sum. */
  lemma AddPointsSum<K>(m: map<K, int>, k: K, points: int)
    ensures SumValues(AddPoints(m, k, points)) == SumValues(m) + points
  {
    var m' := AddPoints(m, k, points);
    SumValuesRemove(m', k);
    if k in m {
      SumValuesRemove(m, k);
      assert m' - {k} == m - {k};
    } else {
      assert m' - {k} == m;
    }
  }

  /** Every key of `keys` set to 0, the other entries of `m` kept. */
  function ZeroOn<K>(m: map<K, int>, keys: set<K>): (r: map<K, int>)
    ensures r.Keys == m.Keys + keys
  {
    map k | k in m.Keys + keys :: if k in keys then 0 else m[k]
  }

  /** A tally of zeros sums to zero. */
  lemma {:induction false} ZeroTableSum<K>(keys: set<K>)
    ensures SumValues(ZeroOn(map[], keys)) == 0
    decreases |keys|
  {
    var z := ZeroOn(map[], keys);
    if keys != {} {
      var k :| k in keys;
      SumValuesRemove(z, k);
      assert z - {k} == ZeroOn(map[], keys - {k});
      ZeroTableSum(keys - {k});
    } else {
      assert z == map[];
    }
  }

  /** Every flag of `keys` that is present set to false; no key is added. */
  function ClearFlags<K>(m: map<K, bool>, keys: set<K>): (r: map<K, bool>)
    ensures r.Keys == m.Keys
  {
    map k | k in m :: if k in keys then false else m[k]
  }

  /** Zeroing a set of keys that covers all of `m` forgets `m`. */
  lemma ZeroOnCovering<K>(m: map<K, int>, keys: set<K>)
    requires m.Keys <= keys
    ensures ZeroOn(m, keys) == ZeroOn(map[], keys)
  {
  }

  /** Sets every key of `keys` to 0 in `m`, one key at a time. */
  method SetToZero<K>(m: map<K, int>, keys: set<K>) returns (r: map<K, int>)
    ensures r == ZeroOn(m, keys)
  {
    r := m;
    var todo := keys;
    while todo != {}
      invariant todo <= keys
      invariant r.Keys == m.Keys + (keys - todo)
      invariant forall k :: k in r ==> r[k] == if k in keys - todo then 0 else m[k]
      decreases todo
    {
      var k :| k in todo;
      r := r[k := 0];
      todo := todo - {k};
    }
  }

  /** Sets every present flag of `keys` to false, one key at a time. */
  method ClearVoted<K>(m: map<K, bool>, keys: set<K>) returns (r: map<K, bool>)
    ensures r == ClearFlags(m, keys)
  {
    r := m;
    var todo := keys;
    while todo != {}
      invariant todo <= keys
      invariant r.Keys == m.Keys
      invariant forall k :: k in r ==> r[k] == if k in keys - todo then false else m[k]
      decreases todo
    {
      var k :| k in todo;
      if Flag(r, k) {
        r := r[k := false];
      }
      todo := todo - {k};
    }
  }

  /** The phase gate of the answer phase: every seated user answered twice. */
  predicate AllAnswered(seated: set<UserId>, questionNum: map<UserId, int>)
  {
    forall u :: u in seated ==> Count(questionNum, u) == 2
  }

  /** The phase gate of a duel: every seated user who is not one of its two
      participants has voted. `seats` maps each seated user to their
      username. */
  predicate AllVoted(seats: map<UserId, Username>, duel: Duel, isVoted: map<UserId, bool>)
  {
    forall u :: u in seats ==> seats[u] in duel.usernames || Flag(isVoted, u)
  }

  /** The scan of saveAnswer over all seats. */
  method ScanAnswered(seated: set<UserId>, questionNum: map<UserId, int>) returns (everyone: bool)
    ensures everyone == AllAnswered(seated, questionNum)
  {
    everyone := true;
    var todo := seated;
    while todo != {}
      invariant todo <= seated
      invariant everyone == forall u :: u in seated - todo ==> Count(questionNum, u) == 2
      decreases todo
    {
      var u :| u in todo;
      if Count(questionNum, u) != 2 {
        everyone := false;
      }
      todo := todo - {u};
    }
  }

  /** The scan of saveVote over all seats, skipping the duel's participants. */
  method ScanVoted(seats: map<UserId, Username>, duel: Duel, isVoted: map<UserId, bool>)
    returns (ended: bool)
    requires duel.WellFormed()
    ensures ended == AllVoted(seats, duel, isVoted)
  {
    ended := true;
    var todo := seats.Keys;
    while todo != {}
      invariant todo <= seats.Keys
      invariant ended == forall u :: u in seats.Keys - todo ==> seats[u] in duel.usernames || Flag(isVoted, u)
      decreases todo
    {
      var u :| u in todo;
      var usernameIn := seats[u];
      if !(duel.usernames[0] == usernameIn || duel.usernames[1] == usernameIn) {
        if !Flag(isVoted, u) {
          ended := false;
        }
      }
      todo := todo - {u};
    }
  }
}
