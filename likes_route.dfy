/**
 * `/api/likes`: likes are keyed by post and client address. `GET` reports a post's like count
 * and whether this client likes it; `POST` toggles this client's like.
 */
module LikesRoute {
  import opened Wrappers
  import opened Strings
  import opened Seqs
  import opened Json
  import opened Http
  import opened Db

  /**
   * The client address: the first entry of `x-forwarded-for` (trimmed) when that header is
   * non-empty, otherwise `x-real-ip` when non-empty, otherwise `"unknown"`.
   */
  function ClientIp(forwarded: Option<string>, realIp: Option<string>): (r: string)
    ensures Filled(forwarded) ==> r == Trim(BeforeFirst(forwarded.value, ','))
    ensures Filled(forwarded) ==> ',' !in r && (r == [] || (!IsSpace(r[0]) && !IsSpace(r[|r| - 1])))
    ensures !Filled(forwarded) && Filled(realIp) ==> r == realIp.value
    ensures !Filled(forwarded) && !Filled(realIp) ==> r == "unknown"
  {
    if Filled(forwarded) then Trim(BeforeFirst(forwarded.value, ','))
    else if Filled(realIp) then realIp.value
    else "unknown"
  }

  /** Only the first (client-most) hop of a forwarding chain is used. */
  lemma ClientIpFirstHop(hop: string, rest: string, realIp: Option<string>)
    requires ',' !in hop
    ensures ClientIp(Some(hop + "," + rest), realIp) == Trim(hop)
  {
    BeforeFirstOfJoin(hop, ',', rest);
  }

  /** A header with a single entry gives that entry, trimmed. */
  lemma ClientIpSingleHop(hop: string, realIp: Option<string>)
    requires hop != "" && ',' !in hop
    ensures ClientIp(Some(hop), realIp) == Trim(hop)
  {
    BeforeFirstWithout(hop, ',');
  }

  lemma {:induction false} BeforeFirstWithout(s: string, sep: char)
    requires sep !in s
    ensures BeforeFirst(s, sep) == s
  {
    if s != [] {
      BeforeFirstWithout(s[1..], sep);
      assert s == [s[0]] + s[1..];
    }
  }

  lemma {:induction false} BeforeFirstOfJoin(a: string, sep: char, rest: string)
    requires sep !in a
    ensures BeforeFirst(a + [sep] + rest, sep) == a
  {
    if a != [] {
      assert (a + [sep] + rest)[1..] == a[1..] + [sep] + rest;
      BeforeFirstOfJoin(a[1..], sep, rest);
    }
  }

  /** The like row a client with address `ip` holds on post `postId`. */
  function Key(postId: int, ip: string): LikeRow {
    LikeRow(postId, ip)
  }

  /** `likes.post_id = postId` */
  function OfPost(postId: int): LikeRow -> bool {
    (row: LikeRow) => row.postId == postId
  }

  /** Every row other than `key`. */
  function Except(key: LikeRow): LikeRow -> bool {
    (row: LikeRow) => row != key
  }

  /** `count(*)` of the likes of a post. */
  function LikeCount(rows: seq<LikeRow>, postId: int): (r: nat)
    ensures r <= |rows|
    ensures forall ip :: HasLiked(rows, postId, ip) ==> r > 0
  {
    |Filter(rows, OfPost(postId))|
  }

  /** Whether the client already likes the post (the toggle's existence query). */
  predicate HasLiked(rows: seq<LikeRow>, postId: int, ip: string) {
    Key(postId, ip) in rows
  }

  /** The toggle: delete the client's like when there is one, insert it otherwise. */
  function Toggle(rows: seq<LikeRow>, postId: int, ip: string): seq<LikeRow> {
    var key := Key(postId, ip);
    if key in rows then Filter(rows, Except(key)) else rows + [key]
  }

  /** A toggle flips whether the client likes the post. */
  lemma ToggleFlips(rows: seq<LikeRow>, postId: int, ip: string)
    ensures HasLiked(Toggle(rows, postId, ip), postId, ip) == !HasLiked(rows, postId, ip)
  {
  }

  /** A toggle touches the client's own like on that post and no other row. */
  lemma ToggleKeepsOthers(rows: seq<LikeRow>, postId: int, ip: string, row: LikeRow)
    requires row != Key(postId, ip)
    ensures multiset(Toggle(rows, postId, ip))[row] == multiset(rows)[row]
  {
  }

  /** A toggle never creates a second like for the same post and address. */
  lemma ToggleKeepsNoDuplicates(rows: seq<LikeRow>, postId: int, ip: string)
    requires NoDuplicates(rows)
    ensures NoDuplicates(Toggle(rows, postId, ip))
  {
    var key := Key(postId, ip);
    var r := Toggle(rows, postId, ip);
    if key !in rows {
      AppendNoDuplicates(rows, key);
    } else {
      FilterNoDuplicates(rows, Except(key));
    }
  }

  /**
   * Toggling twice restores the table's contents; starting from no like it restores the very
   * sequence of rows (after an unlike and a like the re-inserted row sits at the end).
   */
  lemma ToggleTwice(rows: seq<LikeRow>, postId: int, ip: string)
    requires NoDuplicates(rows)
    ensures multiset(Toggle(Toggle(rows, postId, ip), postId, ip)) == multiset(rows)
    ensures !HasLiked(rows, postId, ip) ==> Toggle(Toggle(rows, postId, ip), postId, ip) == rows
  {
    var key := Key(postId, ip);
    var once := Toggle(rows, postId, ip);
    var twice := Toggle(once, postId, ip);
    if key in rows {
      assert multiset(rows)[key] == 1 by { CountOneWithoutDuplicates(rows, key); }
      assert key !in once;
      assert twice == once + [key];
      assert forall x :: multiset(twice)[x] == multiset(rows)[x];
    } else {
      assert key in once;
      FilterConcat(rows, [key], Except(key));
      FilterKeepsAll(rows, Except(key));
      assert Filter([key], Except(key)) == [];
    }
  }

  /** A toggle moves the post's like count by one: down when the client liked it, up otherwise. */
  lemma ToggleCount(rows: seq<LikeRow>, postId: int, ip: string)
    requires NoDuplicates(rows)
    ensures HasLiked(rows, postId, ip) ==> LikeCount(Toggle(rows, postId, ip), postId) + 1 == LikeCount(rows, postId)
    ensures !HasLiked(rows, postId, ip) ==> LikeCount(Toggle(rows, postId, ip), postId) == LikeCount(rows, postId) + 1
  {
    var key := Key(postId, ip);
    if key in rows {
      CountOneWithoutDuplicates(rows, key);
      FilterDropOne(rows, key, OfPost(postId), Except(key));
    } else {
      FilterConcat(rows, [key], OfPost(postId));
    }
  }

  /** A toggle leaves the like count of every other post as it was. */
  lemma ToggleKeepsOtherCounts(rows: seq<LikeRow>, postId: int, ip: string, other: int)
    requires other != postId
    ensures LikeCount(Toggle(rows, postId, ip), other) == LikeCount(rows, other)
  {
    var key := Key(postId, ip);
    if key in rows {
      var before := Filter(rows, OfPost(other));
      var after := Filter(Filter(rows, Except(key)), OfPost(other));
      assert multiset(after) == multiset(before) by {
        assert forall x :: multiset(after)[x] == multiset(before)[x];
      }
      assert |multiset(after)| == |multiset(before)|;
    } else {
      FilterConcat(rows, [key], OfPost(other));
    }
  }

  /** Every like refers to an existing post, before and after a toggle the foreign key allows. */
  lemma ToggleReferencesPosts(posts: seq<Post>, rows: seq<LikeRow>, postId: int, ip: string)
    requires forall i :: 0 <= i < |rows| ==> PostExists(posts, rows[i].postId)
    requires HasLiked(rows, postId, ip) || PostExists(posts, postId)
    ensures var r := Toggle(rows, postId, ip);
            forall i :: 0 <= i < |r| ==> PostExists(posts, r[i].postId)
  {
    var r := Toggle(rows, postId, ip);
    forall i | 0 <= i < |r|
      ensures PostExists(posts, r[i].postId)
    {
      if r[i] in rows {
        var k :| 0 <= k < |rows| && rows[k] == r[i];
      }
    }
  }

  /** A toggle the foreign key allows keeps the store consistent. */
  lemma ToggleConsistent(posts: seq<Post>, tags: seq<TagRow>, likes: seq<LikeRow>, comments: seq<Comment>,
                         nextPostId: nat, nextCommentId: nat, postId: int, ip: string)
    requires Consistent(posts, tags, likes, comments, nextPostId, nextCommentId)
    requires HasLiked(likes, postId, ip) || PostExists(posts, postId)
    ensures Consistent(posts, tags, Toggle(likes, postId, ip), comments, nextPostId, nextCommentId)
  {
    ToggleKeepsNoDuplicates(likes, postId, ip);
    ToggleReferencesPosts(posts, likes, postId, ip);
  }

  // ---------------------------------------------------------------- GET

  datatype LikeStatus = LikeStatus(count: nat, liked: bool)

  /**
   * `GET /api/likes?postId=…`: 400 without a (non-empty) `postId`; a `postId` with no leading
   * number reaches the database as NaN, which rejects it (500); otherwise the count and flag.
   */
  function Status(rows: seq<LikeRow>, postId: Option<string>, ip: string): (r: Response<LikeStatus>)
    ensures r.Failure? <==> !Filled(postId) || ParseInt(postId.value).None?
    ensures !Filled(postId) ==> r == Failure(BAD_REQUEST)
    ensures Filled(postId) && ParseInt(postId.value).None? ==> r == Failure(SERVER_ERROR)
    ensures r.Reply? ==> r.status == OK
    ensures r.Reply? ==> r.body.liked == HasLiked(rows, ParseInt(postId.value).value, ip)
    ensures r.Reply? ==> r.body.count == LikeCount(rows, ParseInt(postId.value).value)
  {
    if !Filled(postId) then Failure(BAD_REQUEST)
    else match ParseInt(postId.value)
      case None => Failure(SERVER_ERROR)
      case Some(n) => Reply(OK, LikeStatus(LikeCount(rows, n), HasLiked(rows, n, ip)))
  }

  /** What a client sees after its own toggle: the flag flipped and the count moved by one. */
  lemma StatusAfterToggle(rows: seq<LikeRow>, n: int, ip: string)
    requires NoDuplicates(rows)
    ensures var before := Status(rows, Some(IntToDecimal(n)), ip);
            var after := Status(Toggle(rows, n, ip), Some(IntToDecimal(n)), ip);
            && before.Reply? && after.Reply?
            && after.body.liked == !before.body.liked
            && (if before.body.liked then after.body.count + 1 == before.body.count
                else after.body.count == before.body.count + 1)
  {
    ParseIntOfDecimal(n);
    assert IntToDecimal(n) != "" by {
      if n < 0 { assert IntToDecimal(n)[0] == '-'; }
    }
    ToggleFlips(rows, n, ip);
    ToggleCount(rows, n, ip);
  }

  // ---------------------------------------------------------------- POST

  datatype ToggleReply = ToggleReply(liked: bool)

  /**
   * `POST /api/likes`: `parseInt(postId)` that is NaN or 0 is refused with 400; an existing like
   * is deleted; otherwise a like is inserted, which the foreign key on `post_id` rejects (500)
   * when there is no such post.
   */
  method ToggleLike(db: Database, postId: JsValue, forwarded: Option<string>, realIp: Option<string>)
    returns (resp: Response<ToggleReply>)
    requires db.Valid()
    modifies db
    ensures db.Valid()
    ensures db.posts == old(db.posts) && db.tags == old(db.tags) && db.comments == old(db.comments)
    ensures db.nextPostId == old(db.nextPostId) && db.nextCommentId == old(db.nextCommentId)
    ensures ParseIntValue(postId).None? || ParseIntValue(postId) == Some(0) ==>
      resp == Failure(BAD_REQUEST) && db.likes == old(db.likes)
    ensures ParseIntValue(postId).Some? && ParseIntValue(postId) != Some(0) ==>
      var n := ParseIntValue(postId).value;
      var ip := ClientIp(forwarded, realIp);
      if HasLiked(old(db.likes), n, ip) then
        resp == Reply(OK, ToggleReply(false)) && db.likes == Toggle(old(db.likes), n, ip)
      else if PostExists(db.posts, n) then
        resp == Reply(OK, ToggleReply(true)) && db.likes == Toggle(old(db.likes), n, ip)
      else
        resp == Failure(SERVER_ERROR) && db.likes == old(db.likes)
  {
    var parsed := ParseIntValue(postId);
    if parsed.None? || parsed.value == 0 {
      return Failure(BAD_REQUEST);
    }
    var n := parsed.value;
    var ip := ClientIp(forwarded, realIp);
    if HasLiked(db.likes, n, ip) || PostExists(db.posts, n) {
      var liked := !HasLiked(db.likes, n, ip);
      ToggleConsistent(db.posts, db.tags, db.likes, db.comments, db.nextPostId, db.nextCommentId, n, ip);
      db.likes := Toggle(db.likes, n, ip);
      resp := Reply(OK, ToggleReply(liked));
    } else {
      resp := Failure(SERVER_ERROR);
    }
  }
}
