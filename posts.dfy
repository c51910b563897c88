/** The post store of the forum backend (package `posts`,
    PostMemoryRepository): a map from post ID to a post value. */
module Posts {

  import opened Outcomes
  import opened Votes
  import opened Comments

  type Uint32 = x: int | 0 <= x < 0x1_0000_0000

  /** A post as stored in the map. The map holds post values, so a post read
      out of it is a copy; the vote and comment repositories inside are
      references that every copy shares. */
  datatype Post = Post(
    id: string,
    title: string,
    views: Uint32,
    kind: string,
    text: string,
    created: int,
    url: string,
    votes: VoteRepo,
    category: string,
    author: Author,
    comments: CommentRepo)

  /** `keys` lists every element of `wanted` exactly once, in some order. */
  ghost predicate Enumerates(keys: seq<string>, wanted: set<string>)
  {
    && (forall i, j :: 0 <= i < j < |keys| ==> keys[i] != keys[j])
    && (forall k :: k in keys <==> k in wanted)
  }

  /** `posts` is the stored post of each key of `keys`, position by position. */
  ghost predicate Lists(posts: seq<Post>, keys: seq<string>, data: map<string, Post>)
  {
    && |posts| == |keys|
    && forall i :: 0 <= i < |keys| ==> keys[i] in data && posts[i] == data[keys[i]]
  }

  function KeysByAuthor(data: map<string, Post>, username: string): set<string>
  {
    set k | k in data && data[k].author.username == username
  }

  function KeysInCategory(data: map<string, Post>, category: string): set<string>
  {
    set k | k in data && data[k].category == category
  }

  class PostRepo {
    var data: map<string, Post>

    /** NewPostMemoryRepo */
    constructor ()
      ensures data == map[]
    {
      data := map[];
    }

    /** Every stored post once, in the map's iteration order; `keys` names
        that order. */
    method GetAll() returns (posts: seq<Post>, ghost keys: seq<string>)
      ensures Enumerates(keys, data.Keys)
      ensures Lists(posts, keys, data)
      ensures |posts| == |data|
    {
      posts, keys := [], [];
      var todo := data.Keys;
      while todo != {}
        invariant todo <= data.Keys
        invariant forall i, j :: 0 <= i < j < |keys| ==> keys[i] != keys[j]
        invariant forall k :: k in keys <==> k in data && k !in todo
        invariant Lists(posts, keys, data)
        invariant |keys| + |todo| == |data|
        decreases todo
      {
        var k :| k in todo;
        posts, keys := posts + [data[k]], keys + [k];
        todo := todo - {k};
      }
    }

    function GetByID(id: string): (r: Result<Post>)
      reads this
      ensures r.Err? <==> id !in data
      ensures r.Err? ==> r.error == NoPost
      ensures r.Ok? ==> r.value == data[id]
    {
      if id in data then Ok(data[id]) else Err(NoPost)
    }

    /** Exactly the posts whose author has the given username. */
    method GetByAuthor(username: string) returns (posts: seq<Post>, ghost keys: seq<string>)
      ensures Enumerates(keys, KeysByAuthor(data, username))
      ensures Lists(posts, keys, data)
      ensures forall p :: p in posts ==> p.author.username == username
    {
      posts, keys := [], [];
      var todo := data.Keys;
      while todo != {}
        invariant todo <= data.Keys
        invariant forall i, j :: 0 <= i < j < |keys| ==> keys[i] != keys[j]
        invariant forall k :: k in keys <==> k in data && k !in todo && data[k].author.username == username
        invariant Lists(posts, keys, data)
        decreases todo
      {
        var k :| k in todo;
        if data[k].author.username == username {
          posts, keys := posts + [data[k]], keys + [k];
        }
        todo := todo - {k};
      }
    }

    /** Exactly the posts filed under the given category. */
    method GetByCategory(category: string) returns (posts: seq<Post>, ghost keys: seq<string>)
      ensures Enumerates(keys, KeysInCategory(data, category))
      ensures Lists(posts, keys, data)
      ensures forall p :: p in posts ==> p.category == category
    {
      posts, keys := [], [];
      var todo := data.Keys;
      while todo != {}
        invariant todo <= data.Keys
        invariant forall i, j :: 0 <= i < j < |keys| ==> keys[i] != keys[j]
        invariant forall k :: k in keys <==> k in data && k !in todo && data[k].category == category
        invariant Lists(posts, keys, data)
        decreases todo
      {
        var k :| k in todo;
        if data[k].category == category {
          posts, keys := posts + [data[k]], keys + [k];
        }
        todo := todo - {k};
      }
    }

    /** Stores the post under a fresh ID with the current time and a new,
        empty vote list and comment list, and returns the ID. */
    method Add(post: Post, freshId: string, now: int) returns (id: string)
      requires freshId !in data
      modifies this
      ensures id == freshId
      ensures |data| == |old(data)| + 1
      ensures id in data && data == old(data)[id := data[id]]
      ensures data[id] == post.(id := id, created := now, comments := data[id].comments, votes := data[id].votes)
      ensures fresh(data[id].comments) && data[id].comments.data == []
      ensures fresh(data[id].votes) && data[id].votes.data == []
    {
      var comments := new CommentRepo();
      var votes := new VoteRepo();
      var stored := post.(id := freshId, created := now, comments := comments, votes := votes);
      data := data[freshId := stored];
      id := freshId;
    }

    /** Reports whether the post exists. The increment of the view counter
        is applied to the copy read out of the map, so the stored post keeps
        its view count: the repository does not change. */
    method UpdateViews(id: string) returns (err: Outcome)
      ensures err == if id in data then Pass else Fail(NoPost)
    {
      if id in data {
        var post := data[id];
        post := post.(views := (post.views + 1) % 0x1_0000_0000);
        return Pass;
      }
      return Fail(NoPost);
    }

    method Delete(id: string) returns (err: Outcome)
      modifies this
      ensures err == if id in old(data) then Pass else Fail(NoPost)
      ensures data == old(data) - {id}
      ensures id !in old(data) ==> data == old(data)
    {
      if id !in data {
        return Fail(NoPost);
      }
      data := data - {id};
      err := Pass;
    }
  }
}
