/**
 * `/api/tags`: `GET` lists tags by descending usage count (the ten best matches when a
 * `search` text is given); `POST` returns the tag whose lower-cased name equals the trimmed,
 * lower-cased input, creating it with count 0 when there is none.
 */
module TagsRoute {
  import opened Wrappers
  import opened Strings
  import opened Seqs
  import opened Json
  import opened Http
  import opened Db

  // ---------------------------------------------------------------- GET

  /** The page size of a search. */
  const SearchLimit := 10

  /** `ORDER BY count DESC`. */
  predicate ByCountDesc(a: TagRow, b: TagRow) {
    a.count >= b.count
  }

  lemma ByCountDescIsTotalPreorder()
    ensures TotalPreorder(ByCountDesc)
  {
  }

  /** `name LIKE '%search%'`, the search text read literally. */
  function NameContains(search: string): TagRow -> bool {
    (row: TagRow) => Contains(row.name, search)
  }

  /** The rows a search selects, before ordering and the limit. */
  function Matching(rows: seq<TagRow>, search: string): seq<TagRow> {
    Filter(rows, NameContains(search))
  }

  /**
   * The `GET` result. Without a search text: every tag, by descending count. With one: the
   * matching tags by descending count, cut to the first ten.
   */
  function ListTags(rows: seq<TagRow>, search: Option<string>): (r: seq<TagRow>)
    ensures SortedBy(r, ByCountDesc)
    ensures multiset(r) <= multiset(rows)
    ensures !Filled(search) ==> multiset(r) == multiset(rows)
    ensures Filled(search) ==> |r| == Min(SearchLimit, |Matching(rows, search.value)|)
    ensures Filled(search) ==> forall t :: t in r ==> t in rows && Contains(t.name, search.value)
  {
    ByCountDescIsTotalPreorder();
    if !Filled(search) then SortBy(rows, ByCountDesc)
    else
      var sorted := SortBy(Matching(rows, search.value), ByCountDesc);
      var r := Take(sorted, SearchLimit);
      TopOfSorted(sorted, r, ByCountDesc);
      assert forall t :: t in r ==> t in multiset(sorted);
      FilterSubMultiset(rows, NameContains(search.value));
      r
  }

  /** The limit keeps the best: no matching tag left out has a higher count than a listed one. */
  lemma SearchKeepsTopCounts(rows: seq<TagRow>, search: string, t: TagRow)
    requires search != ""
    requires t in rows && Contains(t.name, search) && t !in ListTags(rows, Some(search))
    ensures forall i :: 0 <= i < |ListTags(rows, Some(search))| ==> ListTags(rows, Some(search))[i].count >= t.count
  {
    ByCountDescIsTotalPreorder();
    var sorted := SortBy(Matching(rows, search), ByCountDesc);
    var r := Take(sorted, SearchLimit);
    assert t in multiset(sorted);
    TopOfSorted(sorted, r, ByCountDesc);
  }

  /** A prefix of a sorted list comes before every element left out of it. */
  lemma TopOfSorted<T>(sorted: seq<T>, top: seq<T>, before: (T, T) -> bool)
    requires SortedBy(sorted, before)
    requires |top| <= |sorted| && top == sorted[..|top|]
    ensures SortedBy(top, before)
    ensures forall t :: t in sorted && t !in top ==> forall i :: 0 <= i < |top| ==> before(top[i], t)
  {
    assert forall i :: 0 <= i < |top| ==> top[i] == sorted[i];
    forall t | t in sorted && t !in top
      ensures forall i :: 0 <= i < |top| ==> before(top[i], t)
    {
      var j :| 0 <= j < |sorted| && sorted[j] == t;
    }
  }

  // ---------------------------------------------------------------- POST

  /** The position of the first row whose lower-cased name is `tagName` (`LOWER(name) = tagName`). */
  function FindLower(rows: seq<TagRow>, tagName: string): (r: Option<nat>)
    ensures r.Some? ==> r.value < |rows| && Lower(rows[r.value].name) == tagName
    ensures r.Some? ==> forall j :: 0 <= j < r.value ==> Lower(rows[j].name) != tagName
    ensures r.None? ==> forall j :: 0 <= j < |rows| ==> Lower(rows[j].name) != tagName
  {
    if rows == [] then None
    else if Lower(rows[0].name) == tagName then Some(0)
    else match FindLower(rows[1..], tagName)
      case None => None
      case Some(i) => Some(i + 1)
  }

  /** The outcome of a `POST`: the response and the table afterwards. */
  datatype Created = Created(resp: Response<TagRow>, rows: seq<TagRow>)

  /**
   * `POST /api/tags`. A falsy `name`, or a string `name` that is all white space, is refused
   * with 400; a truthy `name` that is not a string has no `trim` method, which throws (500).
   * Otherwise an existing row is returned as it is (200), or a row with count 0 is appended and
   * returned (201).
   */
  function CreateTag(rows: seq<TagRow>, name: JsValue): (r: Created)
    ensures r.resp.Failure? ==> r.rows == rows
    ensures r.resp.Failure? <==> !name.Str? || IsBlank(name.s)
    ensures r.resp.Failure? ==> r.resp.status == if Truthy(name) && !name.Str? then SERVER_ERROR else BAD_REQUEST
    ensures r.resp.Reply? ==> Lower(r.resp.body.name) == Normalize(name.s) && r.resp.body in r.rows
    ensures r.resp.Reply? && r.resp.status == OK ==> r.rows == rows && r.resp.body in rows
    ensures r.resp.Reply? && r.resp.status == CREATED ==>
      && (forall t :: t in rows ==> Lower(t.name) != Normalize(name.s))
      && r.resp.body == TagRow(Normalize(name.s), 0)
      && r.rows == rows + [r.resp.body]
    ensures r.resp.Reply? ==> r.resp.status == OK || r.resp.status == CREATED
  {
    if !Truthy(name) then Created(Failure(BAD_REQUEST), rows)
    else if !name.Str? then Created(Failure(SERVER_ERROR), rows)
    else if Trim(name.s) == [] then Created(Failure(BAD_REQUEST), rows)
    else
      var tagName := Normalize(name.s);
      LowerIdempotent(Trim(name.s));
      match FindLower(rows, tagName)
      case Some(i) => Created(Reply(OK, rows[i]), rows)
      case None =>
        var row := TagRow(tagName, 0);
        Created(Reply(CREATED, row), rows + [row])
  }

  /** Creating a tag never gives two rows the same name. */
  lemma CreateTagKeepsUnique(rows: seq<TagRow>, name: JsValue)
    requires UniqueNames(rows)
    ensures UniqueNames(CreateTag(rows, name).rows)
  {
    var r := CreateTag(rows, name);
    if r.resp.Reply? && r.resp.status == CREATED {
      var tagName := r.resp.body.name;
      LowerIdempotent(Trim(name.s));
      forall i | 0 <= i < |rows|
        ensures rows[i].name != tagName
      {
        assert rows[i] in rows;
      }
    }
  }

  /** Asking for the same name again returns the same row and changes nothing. */
  lemma CreateTagIdempotent(rows: seq<TagRow>, name: JsValue)
    ensures var first := CreateTag(rows, name);
            var second := CreateTag(first.rows, name);
            && second.rows == first.rows
            && (first.resp.Reply? ==> second.resp == Reply(OK, first.resp.body))
  {
    var first := CreateTag(rows, name);
    if first.resp.Reply? && first.resp.status == CREATED {
      LowerIdempotent(Trim(name.s));
      FindLowerAppended(rows, first.resp.body, Normalize(name.s));
    }
  }

  lemma {:induction false} FindLowerAppended(rows: seq<TagRow>, row: TagRow, tagName: string)
    requires forall t :: t in rows ==> Lower(t.name) != tagName
    requires Lower(row.name) == tagName
    ensures FindLower(rows + [row], tagName) == Some(|rows|)
  {
    if rows != [] {
      assert rows[0] in rows;
      assert (rows + [row])[1..] == rows[1..] + [row];
      FindLowerAppended(rows[1..], row, tagName);
    }
  }

  /** `POST /api/tags` applied to the store. */
  method AddTag(db: Database, name: JsValue) returns (resp: Response<TagRow>)
    requires db.Valid()
    modifies db
    ensures db.Valid()
    ensures resp == CreateTag(old(db.tags), name).resp
    ensures db.tags == CreateTag(old(db.tags), name).rows
    ensures db.posts == old(db.posts) && db.likes == old(db.likes) && db.comments == old(db.comments)
    ensures db.nextPostId == old(db.nextPostId) && db.nextCommentId == old(db.nextCommentId)
  {
    var created := CreateTag(db.tags, name);
    CreateTagKeepsUnique(db.tags, name);
    db.tags := created.rows;
    resp := created.resp;
  }
}
