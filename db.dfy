/**
 * The relational store: the rows of the `posts`, `tags`, `likes` and `comments` tables and the
 * constraints the schema declares on them, held as sequences in one `Database` object.
 */
module Db {
  import opened Wrappers
  import opened Seqs

  datatype Post = Post(
    id: nat,
    title: string,
    content: string,
    excerpt: Option<string>,
    tags: seq<string>,
    isPinned: bool,
    authorId: string,
    authorName: string,
    createdAt: int,
    updatedAt: int)

  datatype TagRow = TagRow(name: string, count: int)

  datatype LikeRow = LikeRow(postId: int, ipAddress: string)

  datatype Comment = Comment(
    id: nat,
    postId: int,
    authorName: string,
    content: string,
    passwordHash: string,
    createdAt: int,
    updatedAt: int)

  /** The position of the row named `name` (the first one, should there be several). */
  function IndexOfName(rows: seq<TagRow>, name: string): (r: Option<nat>)
    ensures r.Some? ==> r.value < |rows| && rows[r.value].name == name
    ensures r.Some? ==> forall j :: 0 <= j < r.value ==> rows[j].name != name
    ensures r.None? ==> forall j :: 0 <= j < |rows| ==> rows[j].name != name
  {
    if rows == [] then None
    else if rows[0].name == name then Some(0)
    else match IndexOfName(rows[1..], name)
      case None => None
      case Some(i) => Some(i + 1)
  }

  predicate HasName(rows: seq<TagRow>, name: string) {
    IndexOfName(rows, name).Some?
  }

  /** The `count` column of the row named `name`, taken as 0 when there is no such row. */
  function CountOf(rows: seq<TagRow>, name: string): int {
    match IndexOfName(rows, name)
    case Some(i) => rows[i].count
    case None => 0
  }

  /** `tags.name` is declared UNIQUE. */
  predicate UniqueNames(rows: seq<TagRow>) {
    forall i, j :: 0 <= i < j < |rows| ==> rows[i].name != rows[j].name
  }

  predicate PostExists(posts: seq<Post>, id: int) {
    exists i :: 0 <= i < |posts| && posts[i].id == id
  }

  /** Serial ids: every id was handed out before `next`, in increasing order of insertion. */
  predicate PostIdsSerial(posts: seq<Post>, next: nat) {
    && (forall i :: 0 <= i < |posts| ==> posts[i].id < next)
    && (forall i, j :: 0 <= i < j < |posts| ==> posts[i].id < posts[j].id)
  }

  predicate CommentIdsSerial(comments: seq<Comment>, next: nat) {
    && (forall i :: 0 <= i < |comments| ==> comments[i].id < next)
    && (forall i, j :: 0 <= i < j < |comments| ==> comments[i].id < comments[j].id)
  }

  /**
   * The schema's constraints: serial primary keys, unique tag names, likes and comments that
   * reference an existing post, and (kept by the like toggle) one like per post and address.
   */
  predicate Consistent(posts: seq<Post>, tags: seq<TagRow>, likes: seq<LikeRow>, comments: seq<Comment>,
                       nextPostId: nat, nextCommentId: nat)
  {
    && PostIdsSerial(posts, nextPostId)
    && CommentIdsSerial(comments, nextCommentId)
    && UniqueNames(tags)
    && NoDuplicates(likes)
    && (forall i :: 0 <= i < |likes| ==> PostExists(posts, likes[i].postId))
    && (forall i :: 0 <= i < |comments| ==> PostExists(posts, comments[i].postId))
  }

  class Database {
    var posts: seq<Post>
    var tags: seq<TagRow>
    var likes: seq<LikeRow>
    var comments: seq<Comment>
    var nextPostId: nat
    var nextCommentId: nat

    ghost predicate Valid()
      reads this
    {
      Consistent(posts, tags, likes, comments, nextPostId, nextCommentId)
    }

    constructor ()
      ensures Valid()
      ensures posts == [] && tags == [] && likes == [] && comments == []
      ensures nextPostId == 1 && nextCommentId == 1
    {
      posts, tags, likes, comments := [], [], [], [];
      nextPostId, nextCommentId := 1, 1;
    }
  }

  /** Appending posts keeps every existing post reachable. */
  lemma PostExistsExtend(posts: seq<Post>, more: seq<Post>, id: int)
    requires PostExists(posts, id)
    ensures PostExists(posts + more, id)
  {
    var k :| 0 <= k < |posts| && posts[k].id == id;
    assert (posts + more)[k] == posts[k];
  }
}
