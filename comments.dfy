/** The comment list of one forum post (package `posts`,
    CommentMemoryRepository): a slice of comments in insertion order. */
module Comments {

  import opened Outcomes
  import opened Slices

  /** Author of a post or comment (posts/post.go). */
  datatype Author = Author(username: string, id: string)

  /** `created` is the instant the repository stamped on the comment; the
      clock is an input of the model. */
  datatype Comment = Comment(id: string, author: Author, body: string, created: int)

  predicate HasId(comments: seq<Comment>, id: string)
  {
    exists i :: 0 <= i < |comments| && comments[i].id == id
  }

  /** Position of the first comment with the given ID, or -1 when there is
      none: the search loop of GetByID and Delete. */
  function IndexOfId(comments: seq<Comment>, id: string): (i: int)
    ensures -1 <= i < |comments|
    ensures i == -1 <==> !HasId(comments, id)
    ensures 0 <= i ==> comments[i].id == id
    ensures forall j :: 0 <= j < i ==> comments[j].id != id
  {
    if comments == [] then -1
    else if comments[0].id == id then 0
    else
      var rest := IndexOfId(comments[1..], id);
      assert HasId(comments, id) ==> HasId(comments[1..], id) by {
        if HasId(comments, id) {
          var k :| 0 <= k < |comments| && comments[k].id == id;
          assert comments[1..][k - 1].id == id;
        }
      }
      if rest == -1 then -1 else rest + 1
  }

  /** What Delete leaves behind: the first comment with the ID spliced out,
      or the list unchanged when no comment has it. */
  function Deleted(comments: seq<Comment>, id: string): (r: seq<Comment>)
  {
    var i := IndexOfId(comments, id);
    if i == -1 then comments else RemoveAt(comments, i)
  }

  /** A comment appended under an ID no stored comment has is the one
      GetByID finds for that ID, and Delete of that ID removes exactly it. */
  lemma AddThenFind(comments: seq<Comment>, c: Comment)
    requires !HasId(comments, c.id)
    ensures IndexOfId(comments + [c], c.id) == |comments|
    ensures Deleted(comments + [c], c.id) == comments
  {
    var s := comments + [c];
    forall j | 0 <= j < |comments|
      ensures s[j].id != c.id
    {
      assert s[j] == comments[j];
    }
    assert s[|comments|].id == c.id;
    assert RemoveAt(s, |comments|) == comments;
  }

  /** Delete removes exactly one comment with the ID, the first one, and
      keeps every other comment in its order; other IDs stay findable. */
  lemma DeletedSpec(comments: seq<Comment>, id: string)
    requires HasId(comments, id)
    ensures |Deleted(comments, id)| == |comments| - 1
    ensures multiset(Deleted(comments, id)) + multiset{comments[IndexOfId(comments, id)]} == multiset(comments)
    ensures forall other :: other != id && HasId(comments, other) ==> HasId(Deleted(comments, id), other)
  {
    var i := IndexOfId(comments, id);
    var r := Deleted(comments, id);
    assert comments == comments[..i] + [comments[i]] + comments[i + 1..];
    assert r == comments[..i] + comments[i + 1..];
    forall other | other != id && HasId(comments, other)
      ensures HasId(r, other)
    {
      var k :| 0 <= k < |comments| && comments[k].id == other;
      assert k != i;
      assert r[if k < i then k else k - 1].id == other;
    }
  }

  class CommentRepo {
    var data: seq<Comment>

    /** NewCommentMemoryRepo */
    constructor ()
      ensures data == []
    {
      data := [];
    }

    /** A copy of every stored comment, in order. */
    method GetAll() returns (comments: seq<Comment>)
      ensures comments == data
    {
      comments := [];
      var i := 0;
      while i < |data|
        invariant 0 <= i <= |data|
        invariant comments == data[..i]
      {
        comments := comments + [data[i]];
        i := i + 1;
      }
    }

    method GetByID(id: string) returns (r: Result<Comment>)
      ensures r.Err? <==> !HasId(data, id)
      ensures r.Err? ==> r.error == NoComment
      ensures r.Ok? ==> r.value.id == id && r.value == data[IndexOfId(data, id)]
    {
      var idxToGet := -1;
      var idx := 0;
      while idx < |data|
        invariant 0 <= idx <= |data|
        invariant forall j :: 0 <= j < idx ==> data[j].id != id
      {
        if data[idx].id == id {
          idxToGet := idx;
          break;
        }
        idx := idx + 1;
      }
      if idxToGet == -1 {
        return Err(NoComment);
      }
      r := Ok(data[idxToGet]);
    }

    /** Stamps the comment with the fresh ID and the current time, appends
        it and returns the ID. */
    method Add(comment: Comment, freshId: string, now: int) returns (id: string)
      modifies this
      ensures id == freshId
      ensures data == old(data) + [comment.(id := freshId, created := now)]
    {
      var stored := comment.(id := freshId, created := now);
      data := data + [stored];
      id := stored.id;
    }

    method Delete(id: string) returns (err: Outcome)
      modifies this
      ensures err == if HasId(old(data), id) then Pass else Fail(NoComment)
      ensures data == Deleted(old(data), id)
    {
      var idxToDelete := -1;
      var idx := 0;
      while idx < |data|
        invariant 0 <= idx <= |data|
        invariant forall j :: 0 <= j < idx ==> data[j].id != id
      {
        if data[idx].id == id {
          idxToDelete := idx;
          break;
        }
        idx := idx + 1;
      }
      if idxToDelete == -1 {
        return Fail(NoComment);
      }
      data := data[..idxToDelete] + data[idxToDelete + 1..];
      err := Pass;
    }
  }
}
