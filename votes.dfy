/** The vote list of one forum post (package `posts`, VoteMemoryRepository).
    The repository keeps a slice of votes in insertion order; every method
    takes the repository's mutex, which this sequential model leaves out. */
module Votes {

  import opened Slices

  /** One user's vote on a post: 1 for an upvote, -1 for a downvote. */
  datatype Vote = Vote(userId: string, vote: int)

  /** Sum of the vote values, accumulated left to right. */
  function Score(votes: seq<Vote>): int
  {
    if votes == [] then 0 else Score(votes[..|votes| - 1]) + votes[|votes| - 1].vote
  }

  /** Number of votes whose value is exactly 1. */
  function Upvotes(votes: seq<Vote>): (n: nat)
    ensures n <= |votes|
  {
    if votes == [] then 0
    else Upvotes(votes[..|votes| - 1]) + (if votes[|votes| - 1].vote == 1 then 1 else 0)
  }

  /** Share of upvotes in whole percent, rounded down; 0 for an empty list. */
  function Percentage(votes: seq<Vote>): (p: int)
    ensures 0 <= p <= 100
    ensures votes == [] ==> p == 0
  {
    if |votes| == 0 then 0
    else
      var up := Upvotes(votes);
      assert up * 100 <= |votes| * 100;
      up * 100 / |votes|
  }

  predicate HasVoted(votes: seq<Vote>, userId: string)
  {
    exists i :: 0 <= i < |votes| && votes[i].userId == userId
  }

  /** Position of the first vote cast by `userId`. */
  function FirstVoteIndex(votes: seq<Vote>, userId: string): (i: nat)
    requires HasVoted(votes, userId)
    ensures i < |votes| && votes[i].userId == userId
    ensures forall j :: 0 <= j < i ==> votes[j].userId != userId
  {
    if votes[0].userId == userId then 0
    else
      assert HasVoted(votes[1..], userId) by {
        var k :| 0 <= k < |votes| && votes[k].userId == userId;
        assert votes[1..][k - 1].userId == userId;
      }
      1 + FirstVoteIndex(votes[1..], userId)
  }

  /** No user has two votes in the list. */
  predicate DistinctVoters(votes: seq<Vote>)
  {
    forall i, j :: 0 <= i < j < |votes| ==> votes[i].userId != votes[j].userId
  }

  /** Every stored vote is an upvote or a downvote. */
  predicate ValidValues(votes: seq<Vote>)
  {
    forall i :: 0 <= i < |votes| ==> votes[i].vote == 1 || votes[i].vote == -1
  }

  predicate WellFormed(votes: seq<Vote>)
  {
    DistinctVoters(votes) && ValidValues(votes)
  }

  /** What Upvote (value 1) and Downvote (value -1) leave behind: a new vote
      is appended only for a user without one. For a user who already voted
      the list is unchanged, because the Go loop assigns to its copy of the
      element (vote_repo.go:63-66 and 78-81), not to the stored vote. */
  function Cast(votes: seq<Vote>, userId: string, value: int): (r: seq<Vote>)
    ensures HasVoted(votes, userId) ==> r == votes
    ensures !HasVoted(votes, userId) ==> |r| == |votes| + 1 && r[..|votes|] == votes && r[|votes|] == Vote(userId, value)
  {
    if HasVoted(votes, userId) then votes else votes + [Vote(userId, value)]
  }

  /** What Unvote leaves behind: the first vote of the user is spliced out. */
  function Unvoted(votes: seq<Vote>, userId: string): (r: seq<Vote>)
    ensures !HasVoted(votes, userId) ==> r == votes
    ensures HasVoted(votes, userId) ==> |r| == |votes| - 1
  {
    if HasVoted(votes, userId) then RemoveAt(votes, FirstVoteIndex(votes, userId)) else votes
  }

  /** Removing one vote takes exactly its value off the score. */
  lemma {:induction false} ScoreRemoveAt(votes: seq<Vote>, i: nat)
    requires i < |votes|
    ensures Score(RemoveAt(votes, i)) == Score(votes) - votes[i].vote
  {
    var n := |votes|;
    if i == n - 1 {
      assert RemoveAt(votes, i) == votes[..n - 1];
    } else {
      var front := votes[..n - 1];
      ScoreRemoveAt(front, i);
      assert RemoveAt(votes, i) == RemoveAt(front, i) + [votes[n - 1]];
      assert (RemoveAt(front, i) + [votes[n - 1]])[..n - 2] == RemoveAt(front, i);
    }
  }

  /** Appending one vote adds exactly its value to the score. */
  lemma ScoreAppend(votes: seq<Vote>, v: Vote)
    ensures Score(votes + [v]) == Score(votes) + v.vote
  {
    assert (votes + [v])[..|votes|] == votes;
  }

  /** With votes of ±1 only, the score lies between -len and +len. */
  lemma {:induction false} ScoreBounds(votes: seq<Vote>)
    requires ValidValues(votes)
    ensures -|votes| <= Score(votes) <= |votes|
  {
    if votes != [] {
      ScoreBounds(votes[..|votes| - 1]);
    }
  }

  /** Upvote and Downvote keep the list well formed, and change the score
      by the new vote's value exactly when they append. */
  lemma CastKeepsWellFormed(votes: seq<Vote>, userId: string, value: int)
    requires WellFormed(votes)
    requires value == 1 || value == -1
    ensures WellFormed(Cast(votes, userId, value))
    ensures Score(Cast(votes, userId, value)) == if HasVoted(votes, userId) then Score(votes) else Score(votes) + value
  {
    if !HasVoted(votes, userId) {
      ScoreAppend(votes, Vote(userId, value));
    }
  }

  /** Unvote keeps the list well formed, removes the user's only vote, keeps
      everybody else's vote, and takes that vote's value off the score. */
  lemma UnvotedSpec(votes: seq<Vote>, userId: string)
    requires WellFormed(votes)
    requires HasVoted(votes, userId)
    ensures WellFormed(Unvoted(votes, userId))
    ensures !HasVoted(Unvoted(votes, userId), userId)
    ensures forall other :: other != userId ==> (HasVoted(Unvoted(votes, userId), other) <==> HasVoted(votes, other))
    ensures Score(Unvoted(votes, userId)) == Score(votes) - votes[FirstVoteIndex(votes, userId)].vote
  {
    var i := FirstVoteIndex(votes, userId);
    var r := RemoveAt(votes, i);
    ScoreRemoveAt(votes, i);
    forall k | 0 <= k < |r|
      ensures r[k].userId != userId
    {
      assert r[k] == votes[if k < i then k else k + 1];
    }
    forall other | other != userId
      ensures HasVoted(r, other) <==> HasVoted(votes, other)
    {
      if HasVoted(votes, other) {
        var k :| 0 <= k < |votes| && votes[k].userId == other;
        assert k != i;
        assert r[if k < i then k else k - 1].userId == other;
      }
    }
  }

  /** Unvote undoes a vote just cast by a user who had none. */
  lemma UnvoteUndoesCast(votes: seq<Vote>, userId: string, value: int)
    requires !HasVoted(votes, userId)
    ensures Unvoted(Cast(votes, userId, value), userId) == votes
  {
    var c := Cast(votes, userId, value);
    assert c[|votes|].userId == userId;
    var i := FirstVoteIndex(c, userId);
    assert i == |votes|;
    assert RemoveAt(c, i) == votes;
  }

  /** Replacing one vote changes the score by the difference of the two
      values. */
  lemma {:induction false} ScoreUpdate(votes: seq<Vote>, i: nat, v: Vote)
    requires i < |votes|
    ensures Score(votes[i := v]) == Score(votes) - votes[i].vote + v.vote
  {
    var n := |votes|;
    var front := votes[..n - 1];
    if i == n - 1 {
      assert votes[i := v][..n - 1] == front;
    } else {
      ScoreUpdate(front, i, v);
      assert votes[i := v][..n - 1] == front[i := v];
    }
  }

  /** Upvote and Downvote as evidently meant: a user who already voted has
      that vote replaced by the new value; a user without one gets a vote
      appended, as in Cast. */
  function Recast(votes: seq<Vote>, userId: string, value: int): (r: seq<Vote>)
    ensures !HasVoted(votes, userId) ==> r == Cast(votes, userId, value)
    ensures |r| == |votes| || |r| == |votes| + 1
  {
    if HasVoted(votes, userId) then votes[FirstVoteIndex(votes, userId) := Vote(userId, value)]
    else votes + [Vote(userId, value)]
  }

  /** The corrected vote keeps the list well formed, leaves the user with
      exactly the new value, and moves the score from the user's previous
      vote (none counts as 0) to the new one. */
  lemma RecastSpec(votes: seq<Vote>, userId: string, value: int)
    requires WellFormed(votes)
    requires value == 1 || value == -1
    ensures WellFormed(Recast(votes, userId, value))
    ensures HasVoted(Recast(votes, userId, value), userId)
    ensures Recast(votes, userId, value)[FirstVoteIndex(Recast(votes, userId, value), userId)].vote == value
    ensures Score(Recast(votes, userId, value))
         == Score(votes) - (if HasVoted(votes, userId) then votes[FirstVoteIndex(votes, userId)].vote else 0) + value
  {
    var r := Recast(votes, userId, value);
    if HasVoted(votes, userId) {
      var i := FirstVoteIndex(votes, userId);
      ScoreUpdate(votes, i, Vote(userId, value));
      assert r[i].userId == userId;
    } else {
      ScoreAppend(votes, Vote(userId, value));
      assert r[|votes|].userId == userId;
    }
  }

  /** As written, a downvote after an upvote by the same user is lost: the
      stored vote stays an upvote and the score stays 1. The corrected
      Recast turns it into a downvote with score -1. */
  lemma ChangedVoteIgnored()
    ensures Cast(Cast([], "u1", 1), "u1", -1) == [Vote("u1", 1)]
    ensures Score(Cast(Cast([], "u1", 1), "u1", -1)) == 1
    ensures Recast(Recast([], "u1", 1), "u1", -1) == [Vote("u1", -1)]
    ensures Score(Recast(Recast([], "u1", 1), "u1", -1)) == -1
  {
  }

  class VoteRepo {
    var data: seq<Vote>

    ghost predicate Valid()
      reads this
    {
      WellFormed(data)
    }

    /** NewVoteMemoryRepo */
    constructor ()
      ensures Valid() && data == []
    {
      data := [];
    }

    /** A copy of every stored vote, in order. */
    method GetAll() returns (votes: seq<Vote>)
      ensures votes == data
    {
      votes := [];
      var i := 0;
      while i < |data|
        invariant 0 <= i <= |data|
        invariant votes == data[..i]
      {
        votes := votes + [data[i]];
        i := i + 1;
      }
    }

    method GetScore() returns (score: int)
      ensures score == Score(data)
      ensures Valid() ==> -|data| <= score <= |data|
    {
      score := 0;
      var i := 0;
      while i < |data|
        invariant 0 <= i <= |data|
        invariant score == Score(data[..i])
      {
        assert data[..i + 1][..i] == data[..i];
        score := score + data[i].vote;
        i := i + 1;
      }
      assert data[..|data|] == data;
      if Valid() {
        ScoreBounds(data);
      }
    }

    method GetUpvotePercentage() returns (percent: int)
      ensures percent == Percentage(data)
      ensures 0 <= percent <= 100
    {
      var votes := |data|;
      if votes == 0 {
        return 0;
      }
      var upvotes := 0;
      var i := 0;
      while i < |data|
        invariant 0 <= i <= |data|
        invariant upvotes == Upvotes(data[..i])
      {
        assert data[..i + 1][..i] == data[..i];
        if data[i].vote == 1 {
          upvotes := upvotes + 1;
        }
        i := i + 1;
      }
      assert data[..|data|] == data;
      percent := upvotes * 100 / votes;
    }

    method Upvote(userId: string)
      requires Valid()
      modifies this
      ensures Valid()
      ensures data == Cast(old(data), userId, 1)
    {
      CastKeepsWellFormed(data, userId, 1);
      var i := 0;
      while i < |data|
        invariant 0 <= i <= |data|
        invariant forall j :: 0 <= j < i ==> data[j].userId != userId
      {
        if data[i].userId == userId {
          var vote := data[i];
          vote := vote.(vote := 1);  // updates the loop's copy only
          return;
        }
        i := i + 1;
      }
      data := data + [Vote(userId, 1)];
    }

    method Downvote(userId: string)
      requires Valid()
      modifies this
      ensures Valid()
      ensures data == Cast(old(data), userId, -1)
    {
      CastKeepsWellFormed(data, userId, -1);
      var i := 0;
      while i < |data|
        invariant 0 <= i <= |data|
        invariant forall j :: 0 <= j < i ==> data[j].userId != userId
      {
        if data[i].userId == userId {
          var vote := data[i];
          vote := vote.(vote := -1);  // updates the loop's copy only
          return;
        }
        i := i + 1;
      }
      data := data + [Vote(userId, -1)];
    }

    method Unvote(userId: string)
      requires Valid()
      modifies this
      ensures Valid()
      ensures data == Unvoted(old(data), userId)
    {
      var i := 0;
      while i < |data|
        invariant 0 <= i <= |data|
        invariant forall j :: 0 <= j < i ==> data[j].userId != userId
      {
        if data[i].userId == userId {
          assert HasVoted(data, userId);
          assert FirstVoteIndex(data, userId) == i;
          UnvotedSpec(data, userId);
          data := data[..i] + data[i + 1..];
          return;
        }
        i := i + 1;
      }
    }
  }
}
