/**
 * `/api/comments`: `GET` lists a post's comments, newest first, without their password hashes;
 * `POST` stores a comment with the hash of its password and answers with the stored row minus
 * the hash.
 */
module CommentsRoute {
  import opened Wrappers
  import opened Strings
  import opened Seqs
  import opened Json
  import opened Http
  import opened Db

  // ---------------------------------------------------------------- GET

  /** The columns the listing selects. */
  datatype CommentSummary = CommentSummary(id: nat, authorName: string, content: string, createdAt: int)

  function Summary(c: Comment): CommentSummary {
    CommentSummary(c.id, c.authorName, c.content, c.createdAt)
  }

  /** `comments.post_id = postId` */
  function OnPost(postId: int): Comment -> bool {
    (c: Comment) => c.postId == postId
  }

  /** `ORDER BY created_at DESC`. */
  predicate NewestFirst(a: Comment, b: Comment) {
    a.createdAt >= b.createdAt
  }

  lemma NewestFirstIsTotalPreorder()
    ensures TotalPreorder(NewestFirst)
  {
  }

  /** The selected columns of each row, in order. */
  function Summaries(cs: seq<Comment>): (r: seq<CommentSummary>)
    ensures |r| == |cs|
    ensures forall i :: 0 <= i < |cs| ==> r[i] == Summary(cs[i])
  {
    seq(|cs|, i requires 0 <= i < |cs| => Summary(cs[i]))
  }

  /** The comments of post `postId`, newest first: one entry per comment of that post and no others. */
  function PostComments(comments: seq<Comment>, postId: int): (r: seq<CommentSummary>)
    ensures |r| == |Filter(comments, OnPost(postId))|
    ensures forall i :: 0 <= i < |r| ==> exists c :: c in comments && c.postId == postId && r[i] == Summary(c)
    ensures forall c :: c in comments && c.postId == postId ==> Summary(c) in r
    ensures forall i, j :: 0 <= i < j < |r| ==> r[i].createdAt >= r[j].createdAt
    ensures multiset(r) == multiset(Summaries(Filter(comments, OnPost(postId))))
  {
    NewestFirstIsTotalPreorder();
    var mine := Filter(comments, OnPost(postId));
    var sorted := SortBy(mine, NewestFirst);
    SummariesOfSorted(comments, postId, mine, sorted);
    SummariesPermute(sorted, mine);
    Summaries(sorted)
  }

  lemma SummariesConcat(a: seq<Comment>, b: seq<Comment>)
    ensures Summaries(a + b) == Summaries(a) + Summaries(b)
  {
    var l, r := Summaries(a + b), Summaries(a) + Summaries(b);
    assert |l| == |r|;
    forall i | 0 <= i < |l|
      ensures l[i] == r[i]
    {
      if i < |a| {
        assert (a + b)[i] == a[i];
      } else {
        assert (a + b)[i] == b[i - |a|];
      }
    }
  }

  /** Reordering the comments reorders their summaries the same way, duplicates included. */
  lemma {:induction false} SummariesPermute(a: seq<Comment>, b: seq<Comment>)
    requires multiset(a) == multiset(b)
    ensures multiset(Summaries(a)) == multiset(Summaries(b))
    decreases |a|
  {
    if a == [] {
      assert |b| == |multiset(b)| == 0;
    } else {
      assert a[0] in multiset(b);
      var k :| 0 <= k < |b| && b[k] == a[0];
      RemoveMatching(a, b, k);
      SummariesPermute(a[1..], b[..k] + b[k + 1..]);
      SummariesCons(a);
      SummariesSplit(b, k);
    }
  }

  lemma SummariesCons(a: seq<Comment>)
    requires a != []
    ensures multiset(Summaries(a)) == multiset{Summary(a[0])} + multiset(Summaries(a[1..]))
  {
    var l, r := Summaries(a), [Summary(a[0])] + Summaries(a[1..]);
    forall i | 0 <= i < |l|
      ensures l[i] == r[i]
    {
      if i > 0 {
        assert a[1..][i - 1] == a[i];
      }
    }
    assert l == r;
  }

  /** Taking the first element off `a` and its match off `b` keeps the two multisets equal. */
  lemma RemoveMatching<T>(a: seq<T>, b: seq<T>, k: nat)
    requires multiset(a) == multiset(b) && a != [] && k < |b| && b[k] == a[0]
    ensures multiset(a[1..]) == multiset(b[..k] + b[k + 1..])
  {
    var x, rest := a[0], b[..k] + b[k + 1..];
    assert b == b[..k] + [x] + b[k + 1..];
    assert a == [x] + a[1..];
    assert multiset(rest) == multiset(b[..k]) + multiset(b[k + 1..]);
    forall y
      ensures multiset(a[1..])[y] == multiset(rest)[y]
    {
      assert multiset(a)[y] == multiset{x}[y] + multiset(a[1..])[y];
      assert multiset(b)[y] == multiset{x}[y] + multiset(rest)[y];
    }
  }

  /** The summaries around position `k`, and the summaries without it. */
  lemma SummariesSplit(b: seq<Comment>, k: nat)
    requires k < |b|
    ensures multiset(Summaries(b)) == multiset(Summaries(b[..k] + b[k + 1..])) + multiset{Summary(b[k])}
  {
    assert b == b[..k] + [b[k]] + b[k + 1..];
    SummariesConcat(b[..k] + [b[k]], b[k + 1..]);
    SummariesConcat(b[..k], [b[k]]);
    SummariesConcat(b[..k], b[k + 1..]);
  }

  lemma SummariesOfSorted(comments: seq<Comment>, postId: int, mine: seq<Comment>, sorted: seq<Comment>)
    requires mine == Filter(comments, OnPost(postId))
    requires multiset(sorted) == multiset(mine)
    requires SortedBy(sorted, NewestFirst)
    ensures var r := Summaries(sorted);
            && (forall i :: 0 <= i < |r| ==> exists c :: c in comments && c.postId == postId && r[i] == Summary(c))
            && (forall c :: c in comments && c.postId == postId ==> Summary(c) in r)
            && (forall i, j :: 0 <= i < j < |r| ==> r[i].createdAt >= r[j].createdAt)
  {
    SummariesFromPost(comments, postId, mine, sorted);
    SummariesCoverPost(comments, postId, mine, sorted);
  }

  lemma SummariesFromPost(comments: seq<Comment>, postId: int, mine: seq<Comment>, sorted: seq<Comment>)
    requires mine == Filter(comments, OnPost(postId))
    requires multiset(sorted) == multiset(mine)
    ensures var r := Summaries(sorted);
            forall i :: 0 <= i < |r| ==> exists c :: c in comments && c.postId == postId && r[i] == Summary(c)
  {
    var r := Summaries(sorted);
    forall i | 0 <= i < |r|
      ensures exists c :: c in comments && c.postId == postId && r[i] == Summary(c)
    {
      assert sorted[i] in multiset(mine);
      assert sorted[i] in mine;
    }
  }

  lemma SummariesCoverPost(comments: seq<Comment>, postId: int, mine: seq<Comment>, sorted: seq<Comment>)
    requires mine == Filter(comments, OnPost(postId))
    requires multiset(sorted) == multiset(mine)
    ensures var r := Summaries(sorted);
            forall c :: c in comments && c.postId == postId ==> Summary(c) in r
  {
    var r := Summaries(sorted);
    forall c | c in comments && c.postId == postId
      ensures Summary(c) in r
    {
      assert c in mine;
      assert c in multiset(sorted);
      var k :| 0 <= k < |sorted| && sorted[k] == c;
      assert r[k] == Summary(c);
    }
  }

  /**
   * `GET /api/comments?postId=…`: 400 without a (non-empty) `postId`; a `postId` with no leading
   * number reaches the database as NaN, which rejects it (500).
   */
  function ListComments(comments: seq<Comment>, postId: Option<string>): (r: Response<seq<CommentSummary>>)
    ensures !Filled(postId) ==> r == Failure(BAD_REQUEST)
    ensures Filled(postId) && ParseInt(postId.value).None? ==> r == Failure(SERVER_ERROR)
    ensures Filled(postId) && ParseInt(postId.value).Some? ==>
      r == Reply(OK, PostComments(comments, ParseInt(postId.value).value))
  {
    if !Filled(postId) then Failure(BAD_REQUEST)
    else match ParseInt(postId.value)
      case None => Failure(SERVER_ERROR)
      case Some(n) => Reply(OK, PostComments(comments, n))
  }

  // ---------------------------------------------------------------- POST

  /** The `POST` body. */
  datatype CommentInput = CommentInput(
    postId: JsValue, authorName: Option<string>, content: Option<string>, password: Option<string>)

  /** The response body: every stored column except the password hash. */
  datatype CommentView = CommentView(
    id: nat, postId: int, authorName: string, content: string, createdAt: int, updatedAt: int)

  function View(c: Comment): CommentView {
    CommentView(c.id, c.postId, c.authorName, c.content, c.createdAt, c.updatedAt)
  }

  /** All four fields are truthy. */
  predicate Complete(input: CommentInput) {
    Truthy(input.postId) && Filled(input.authorName) && Filled(input.content) && Filled(input.password)
  }

  /**
   * `POST /api/comments`. An incomplete body is refused with 400. The password is hashed with
   * `hash` (bcrypt in the deployed code); the row stores `parseInt(postId)`, which the database
   * rejects when it is NaN or names no post (500).
   */
  method CreateComment(db: Database, input: CommentInput, hash: string -> string, now: int)
    returns (resp: Response<CommentView>)
    requires db.Valid()
    modifies db
    ensures db.Valid()
    ensures db.posts == old(db.posts) && db.tags == old(db.tags) && db.likes == old(db.likes)
    ensures db.nextPostId == old(db.nextPostId)
    ensures !Complete(input) ==> resp == Failure(BAD_REQUEST) && unchanged(db)
    ensures Complete(input) && ParseIntValue(input.postId).None? ==> resp == Failure(SERVER_ERROR) && unchanged(db)
    ensures Complete(input) && ParseIntValue(input.postId).Some? && !PostExists(db.posts, ParseIntValue(input.postId).value) ==>
      && resp == Failure(SERVER_ERROR)
      && db.comments == old(db.comments)
      && db.nextCommentId == old(db.nextCommentId) + 1
    ensures Complete(input) && ParseIntValue(input.postId).Some? && PostExists(db.posts, ParseIntValue(input.postId).value) ==>
      var row := Comment(old(db.nextCommentId), ParseIntValue(input.postId).value, input.authorName.value,
                         input.content.value, hash(input.password.value), now, now);
      && db.comments == old(db.comments) + [row]
      && db.nextCommentId == old(db.nextCommentId) + 1
      && resp == Reply(CREATED, View(row))
  {
    if !Complete(input) {
      return Failure(BAD_REQUEST);
    }
    var passwordHash := hash(input.password.value);
    var parsed := ParseIntValue(input.postId);
    if parsed.None? {
      return Failure(SERVER_ERROR);
    }
    if !PostExists(db.posts, parsed.value) {
      // the SERIAL default is drawn before the foreign key is checked, and is not given back
      db.nextCommentId := db.nextCommentId + 1;
      return Failure(SERVER_ERROR);
    }
    var row := Comment(db.nextCommentId, parsed.value, input.authorName.value, input.content.value,
                       passwordHash, now, now);
    AppendCommentConsistent(db.posts, db.tags, db.likes, db.comments, db.nextPostId, db.nextCommentId, row);
    db.comments := db.comments + [row];
    db.nextCommentId := db.nextCommentId + 1;
    resp := Reply(CREATED, View(row));
  }

  /** Appending a comment with the next id on an existing post keeps the store consistent. */
  lemma AppendCommentConsistent(posts: seq<Post>, tags: seq<TagRow>, likes: seq<LikeRow>, comments: seq<Comment>,
                                nextPostId: nat, nextCommentId: nat, row: Comment)
    requires Consistent(posts, tags, likes, comments, nextPostId, nextCommentId)
    requires row.id == nextCommentId && PostExists(posts, row.postId)
    ensures Consistent(posts, tags, likes, comments + [row], nextPostId, nextCommentId + 1)
  {
    var all := comments + [row];
    forall i | 0 <= i < |all|
      ensures PostExists(posts, all[i].postId)
    {
      if i < |comments| {
        assert all[i] == comments[i];
      }
    }
  }

  /** A stored comment shows up in its post's listing, under the id it was given. */
  lemma CreatedCommentListed(comments: seq<Comment>, row: Comment)
    ensures Summary(row) in PostComments(comments + [row], row.postId)
    ensures (forall c :: c in comments ==> c.id != row.id) ==>
      exists i :: 0 <= i < |PostComments(comments + [row], row.postId)| &&
        PostComments(comments + [row], row.postId)[i].id == row.id
  {
    assert row in comments + [row];
  }

  /** A comment stored under another post does not change this post's listing's length. */
  lemma OtherPostListingLength(comments: seq<Comment>, row: Comment, postId: int)
    requires row.postId != postId
    ensures |PostComments(comments + [row], postId)| == |PostComments(comments, postId)|
  {
    FilterConcat(comments, [row], OnPost(postId));
  }
}
