/**
 * `/api/posts`: `GET` lists posts, optionally those carrying one tag, pinned first and newest
 * first; `POST` lets an administrator create a post and bumps the usage count of every tag
 * the post names, one upsert per tag.
 */
module PostsRoute {
  import opened Wrappers
  import opened Strings
  import opened Seqs
  import opened Json
  import opened Http
  import opened Db
  import opened Auth

  /** The JSON body of a `POST`. */
  datatype PostInput = PostInput(
    title: Option<string>,
    content: Option<string>,
    excerpt: Option<string>,
    tags: Option<seq<string>>,
    isPinned: JsValue)

  // ---------------------------------------------------------------- GET

  /** `tag = ANY(posts.tags)`, applied only when the `tag` parameter is truthy. */
  predicate MatchesTag(post: Post, tag: Option<string>) {
    tag.None? || tag.value == "" || tag.value in post.tags
  }

  /** `ORDER BY is_pinned DESC, created_at DESC`. */
  predicate PinnedFirst(a: Post, b: Post) {
    (a.isPinned && !b.isPinned) || (a.isPinned == b.isPinned && a.createdAt >= b.createdAt)
  }

  lemma PinnedFirstIsTotalPreorder()
    ensures TotalPreorder(PinnedFirst)
  {
  }

  /**
   * The posts the `GET` returns: exactly the matching rows (with their multiplicities), every
   * pinned post before every unpinned one, and newest first among equals.
   */
  function ListPosts(rows: seq<Post>, tag: Option<string>): (r: seq<Post>)
    ensures forall p :: multiset(r)[p] == if MatchesTag(p, tag) then multiset(rows)[p] else 0
    ensures forall p :: p in r <==> p in rows && MatchesTag(p, tag)
    ensures forall i, j :: 0 <= i < j < |r| ==> r[i].isPinned || !r[j].isPinned
    ensures forall i, j :: 0 <= i < j < |r| && r[i].isPinned == r[j].isPinned ==> r[i].createdAt >= r[j].createdAt
  {
    PinnedFirstIsTotalPreorder();
    var r := SortBy(Filter(rows, p => MatchesTag(p, tag)), PinnedFirst);
    assert forall p :: p in r <==> p in multiset(r);
    r
  }

  /** Without a `tag` parameter every post is listed. */
  lemma ListPostsWithoutTag(rows: seq<Post>)
    ensures multiset(ListPosts(rows, None)) == multiset(rows)
    ensures |ListPosts(rows, None)| == |rows|
  {
    var r := ListPosts(rows, None);
    assert forall p :: multiset(r)[p] == multiset(rows)[p];
    assert multiset(r) == multiset(rows);
    assert |multiset(r)| == |multiset(rows)|;
  }

  // ---------------------------------------------------------------- POST

  /** `session?.user?.isAdmin` is truthy. */
  predicate IsAdminSession(session: Session?)
    reads session
  {
    session != null && IsAdminUser(session.user)
  }

  /** `session.user.name || session.user.email!` */
  function AuthorName(user: UserInfo): (r: Option<string>)
    ensures user.name.Some? && user.name.value != "" ==> r == user.name
    ensures (user.name.None? || user.name.value == "") ==> r == user.email
  {
    if user.name.Some? && user.name.value != "" then user.name else user.email
  }

  /**
   * The row `POST` inserts. The columns title, content, author_id and author_name are NOT NULL,
   * so a missing one makes the insert fail (`None`).
   */
  function NewPost(input: PostInput, user: UserInfo, id: nat, now: int): (r: Option<Post>)
    ensures r.Some? <==> input.title.Some? && input.content.Some? && user.id.Some? && AuthorName(user).Some?
    ensures r.Some? ==> r.value.tags == input.tags.GetOr([])
    ensures r.Some? ==> r.value.isPinned == Truthy(input.isPinned)
    ensures r.Some? ==> r.value.authorName == AuthorName(user).value && r.value.authorId == user.id.value
    ensures r.Some? ==> r.value.title == input.title.value && r.value.content == input.content.value
    ensures r.Some? ==> r.value.excerpt == input.excerpt && r.value.id == id
    ensures r.Some? ==> r.value.createdAt == now && r.value.updatedAt == now
  {
    if input.title.None? || input.content.None? || user.id.None? || AuthorName(user).None? then None
    else Some(Post(
      id, input.title.value, input.content.value, input.excerpt, input.tags.GetOr([]),
      Truthy(input.isPinned), user.id.value, AuthorName(user).value, now, now))
  }

  /** `tagName.toLowerCase()` for every supplied tag. */
  function LowerAll(tags: seq<string>): (r: seq<string>)
    ensures |r| == |tags|
    ensures forall i :: 0 <= i < |tags| ==> r[i] == Lower(tags[i])
  {
    seq(|tags|, i requires 0 <= i < |tags| => Lower(tags[i]))
  }

  /** One `INSERT INTO tags (name, count) VALUES (name, 1) ON CONFLICT (name) DO UPDATE SET count = count + 1`. */
  function Upsert(rows: seq<TagRow>, name: string): seq<TagRow> {
    match IndexOfName(rows, name)
    case Some(i) => rows[i := rows[i].(count := rows[i].count + 1)]
    case None => rows + [TagRow(name, 1)]
  }

  /** The upserts of `names`, in order. */
  function UpsertAll(rows: seq<TagRow>, names: seq<string>): seq<TagRow>
    decreases |names|
  {
    if names == [] then rows
    else Upsert(UpsertAll(rows, names[..|names| - 1]), names[|names| - 1])
  }

  lemma UpsertStep(rows: seq<TagRow>, name: string, n: string)
    requires UniqueNames(rows)
    ensures UniqueNames(Upsert(rows, name))
    ensures CountOf(Upsert(rows, name), n) == CountOf(rows, n) + (if n == name then 1 else 0)
    ensures HasName(Upsert(rows, name), n) <==> HasName(rows, n) || n == name
  {
    var r := Upsert(rows, name);
    match IndexOfName(rows, name)
    case Some(i) =>
      assert forall k :: 0 <= k < |r| ==> r[k].name == rows[k].name;
      assert IndexOfName(r, n) == IndexOfName(rows, n) by {
        match IndexOfName(rows, n)
        case Some(j) => assert r[j].name == n;
        case None =>
      }
    case None =>
      if n == name {
        assert IndexOfName(r, n) == Some(|rows|) by {
          assert r[|rows|].name == n;
        }
      } else {
        assert IndexOfName(r, n) == IndexOfName(rows, n) by {
          match IndexOfName(rows, n)
          case Some(j) => assert r[j].name == n;
          case None =>
        }
      }
  }

  lemma UpsertKeepsRows(rows: seq<TagRow>, name: string)
    ensures |Upsert(rows, name)| >= |rows|
    ensures forall k :: 0 <= k < |rows| ==> Upsert(rows, name)[k].name == rows[k].name
    ensures forall k :: 0 <= k < |rows| && rows[k].name != name ==> Upsert(rows, name)[k] == rows[k]
  {
  }

  /** The upserts keep tag names unique: never two rows with one name. */
  lemma {:induction false} UpsertAllUnique(rows: seq<TagRow>, names: seq<string>)
    requires UniqueNames(rows)
    ensures UniqueNames(UpsertAll(rows, names))
  {
    if names != [] {
      UpsertAllUnique(rows, names[..|names| - 1]);
      UpsertStep(UpsertAll(rows, names[..|names| - 1]), names[|names| - 1], "");
    }
  }

  /**
   * Closed form of the tag counts: each name's count grows by the number of times it was
   * supplied, starting from 0 for a name that had no row (so a new row ends at that number).
   */
  lemma {:induction false} UpsertAllCount(rows: seq<TagRow>, names: seq<string>, n: string)
    requires UniqueNames(rows)
    ensures CountOf(UpsertAll(rows, names), n) == CountOf(rows, n) + multiset(names)[n]
  {
    if names != [] {
      var init := names[..|names| - 1];
      assert names == init + [names[|names| - 1]];
      UpsertAllCount(rows, init, n);
      UpsertAllUnique(rows, init);
      UpsertStep(UpsertAll(rows, init), names[|names| - 1], n);
    }
  }

  /** A name has a row afterwards exactly when it had one before or was supplied. */
  lemma {:induction false} UpsertAllNames(rows: seq<TagRow>, names: seq<string>, n: string)
    requires UniqueNames(rows)
    ensures HasName(UpsertAll(rows, names), n) <==> HasName(rows, n) || n in names
  {
    if names != [] {
      var init := names[..|names| - 1];
      assert names == init + [names[|names| - 1]];
      UpsertAllNames(rows, init, n);
      UpsertAllUnique(rows, init);
      UpsertStep(UpsertAll(rows, init), names[|names| - 1], n);
    }
  }

  /** No row is removed or moved, and rows whose name was not supplied are left as they were. */
  lemma {:induction false} UpsertAllKeepsRows(rows: seq<TagRow>, names: seq<string>)
    ensures |UpsertAll(rows, names)| >= |rows|
    ensures forall k :: 0 <= k < |rows| ==> UpsertAll(rows, names)[k].name == rows[k].name
    ensures forall k :: 0 <= k < |rows| && rows[k].name !in names ==> UpsertAll(rows, names)[k] == rows[k]
  {
    if names != [] {
      var init := names[..|names| - 1];
      UpsertAllKeepsRows(rows, init);
      UpsertKeepsRows(UpsertAll(rows, init), names[|names| - 1]);
      assert forall k :: 0 <= k < |rows| && rows[k].name !in names ==> rows[k].name !in init by {
        assert forall x :: x in init ==> x in names;
      }
    }
  }

  /**
   * `POST /api/posts`: the administrator gate, the insert of the post, and then one tag upsert
   * per supplied tag (lower-cased).
   */
  method CreatePost(db: Database, session: Session?, input: PostInput, now: int) returns (resp: Response<Post>)
    requires db.Valid()
    modifies db
    ensures db.Valid()
    ensures !IsAdminSession(session) ==> resp == Failure(FORBIDDEN) && unchanged(db)
    ensures IsAdminSession(session) && NewPost(input, session.user.value, old(db.nextPostId), now).None? ==>
      && resp == Failure(SERVER_ERROR)
      && db.posts == old(db.posts) && db.tags == old(db.tags)
      && db.likes == old(db.likes) && db.comments == old(db.comments)
      && db.nextPostId == old(db.nextPostId) + 1
      && db.nextCommentId == old(db.nextCommentId)
    ensures IsAdminSession(session) && NewPost(input, session.user.value, old(db.nextPostId), now).Some? ==>
      && resp == Reply(CREATED, NewPost(input, session.user.value, old(db.nextPostId), now).value)
      && db.posts == old(db.posts) + [resp.body]
      && db.nextPostId == old(db.nextPostId) + 1
      && db.tags == UpsertAll(old(db.tags), LowerAll(input.tags.GetOr([])))
      && (forall n :: CountOf(db.tags, n) == CountOf(old(db.tags), n) + multiset(LowerAll(input.tags.GetOr([])))[n])
      && db.likes == old(db.likes) && db.comments == old(db.comments)
      && db.nextCommentId == old(db.nextCommentId)
  {
    if !IsAdminSession(session) {
      return Failure(FORBIDDEN);
    }
    var user := session.user.value;
    var row := NewPost(input, user, db.nextPostId, now);
    if row.None? {
      // the SERIAL default is drawn before NOT NULL is checked, and a sequence never rolls back
      db.nextPostId := db.nextPostId + 1;
      return Failure(SERVER_ERROR);
    }
    var oldPosts := db.posts;
    db.posts := db.posts + [row.value];
    db.nextPostId := db.nextPostId + 1;
    var postTags := input.tags.GetOr([]);
    if input.tags.Some? && |input.tags.value| > 0 {
      var i := 0;
      while i < |postTags|
        invariant 0 <= i <= |postTags|
        invariant db.tags == UpsertAll(old(db.tags), LowerAll(postTags[..i]))
        invariant db.posts == old(db.posts) + [row.value] && db.nextPostId == old(db.nextPostId) + 1
        invariant db.likes == old(db.likes) && db.comments == old(db.comments)
        invariant db.nextCommentId == old(db.nextCommentId)
      {
        assert LowerAll(postTags[..i + 1]) == LowerAll(postTags[..i]) + [Lower(postTags[i])];
        db.tags := Upsert(db.tags, Lower(postTags[i]));
        i := i + 1;
      }
      assert postTags[..i] == postTags;
    } else {
      assert LowerAll(postTags) == [];
    }
    resp := Reply(CREATED, row.value);
    var names := LowerAll(postTags);
    forall n
      ensures CountOf(db.tags, n) == CountOf(old(db.tags), n) + multiset(names)[n]
    {
      UpsertAllCount(old(db.tags), names, n);
    }
    UpsertAllUnique(old(db.tags), names);
    forall i | 0 <= i < |db.likes|
      ensures PostExists(db.posts, db.likes[i].postId)
    {
      PostExistsExtend(oldPosts, [row.value], db.likes[i].postId);
    }
    forall i | 0 <= i < |db.comments|
      ensures PostExists(db.posts, db.comments[i].postId)
    {
      PostExistsExtend(oldPosts, [row.value], db.comments[i].postId);
    }
  }
}
