# 2025-blog: a verified model of the API handlers and client helpers

This project models, in Dafny, the logic of the blog's Next.js API routes and of the few
client components that hold state or string processing of their own:

- `PostsRoute`: `/api/posts`. `GET` filters posts by one tag and orders them pinned first,
  then newest first. `POST` is the administrator gate, then the insert of the post, then
  one tag-count upsert per supplied tag, in a loop.
- `LikesRoute`: `/api/likes`. It holds the client-address resolution. `GET` reports a post's
  like count and whether this client likes it. `POST` toggles this client's like.
- `TagsRoute`: `/api/tags`. `GET` lists tags by descending count, with an optional substring
  search cut to ten results. `POST` normalises the name and then gets or creates the tag.
- `CommentsRoute`: `/api/comments`. `POST` validates the body, hashes the password and answers
  without the hash. `GET` lists a post's comments without hashes, newest first.
- `UploadRoute`: `/api/upload`. It checks presence, size and type in that order, then builds
  the time-stamped file name.
- `Auth`: the NextAuth configuration. It covers the credentials `authorize`, and the `signIn`,
  `jwt` and `session` callbacks.
- `Middleware`: the route protection of `/posts/create` and `/posts/edit`.
- `TagInput`: the tag-list editor. It adds with normalisation and de-duplication, removes by
  value, drops the last tag on Backspace, and runs the suggestion filter.
- `LikeButton`: the like button's client state, `liked`, `likeCount` and `loading`.
- `PostCard`: the server-side HTML stripping, the excerpt rule and the three-tag cut-off.
- `TagSidebar`: the sidebar's case-insensitive tag search.

Supporting modules:

- `Strings` models the JavaScript string operations the code relies on. These are `trim`
  with its full white-space set, `toLowerCase`, `includes`, `startsWith`, `split(',')[0]`,
  `String(n)`, and `parseInt`. The `parseInt` model covers sign, `0x` prefix, longest digit
  prefix, and NaN as `None`.
- `Seqs` holds the query operations: filter (SQL `WHERE`), a sorted permutation (SQL
  `ORDER BY`) and `LIMIT`.
- `Json` models the JSON values that arrive in request bodies and JavaScript truthiness.
- `Db` holds the rows of the four tables in one `Database` object, together with the
  constraints of the schema: serial ids, unique tag names, and foreign keys to `posts`.

The handlers that change tables are methods on the `Database` object, with `modifies db`.
Each method's postcondition gives the new tables as a pure function of the old ones, such as
`Toggle`, `UpsertAll` or `CreateTag`. The lemmas about what the handlers promise are proved
about those functions. The computation in each handler is modelled. The framework around it
is not: request parsing, `NextResponse` and the database driver.

Time, the password hash and the blob store are parameters:

- `now` and `timestamp` are plain integers.
- `hash` is an arbitrary `string -> string`. It stands for bcrypt and is applied to the
  plain-text password.
- `put` is an arbitrary `string -> Option<string>`. It returns the blob's URL, or `None`
  when the upload throws.

A database error surfaces in the code as the handler's `catch` and a 500. The model makes
this explicit in three places:

- an insert that violates NOT NULL. This happens when the post input lacks `title` or
  `content`, or when the session user has no `id`, or has neither `name` nor `email`
  (src/app/api/posts/route.ts:48-56);
- a foreign key violated by a like or a comment on a post that does not exist;
- a NaN id reaching the query.

An insert refused by NOT NULL or by a foreign key has already drawn its `SERIAL` id, and a
PostgreSQL sequence is never rolled back. So after such a 500, the next post id or comment id
is one higher. A NaN id is refused while the parameter is read, before any id is drawn.

Points where the code does something easily overlooked; the model states each as written:

- Likes are keyed by post and client IP. The handlers never write `likes.user_id`
  (src/app/api/likes/route.ts:57-75).
- `UNIQUE(post_id, user_id, ip_address)` never fires, because `user_id` is always NULL and
  NULLs are distinct (src/app/api/create-tables/route.ts:110-117). Only the toggle logic keeps
  one like per post and address. The model states this as `NoDuplicates(likes)` inside
  `Db.Consistent`, and `LikesRoute.ToggleKeepsNoDuplicates` proves that the toggle keeps it.
- A post keeps its `tags` exactly as supplied, in any case, while the tag rows are
  lower-cased (src/app/api/posts/route.ts:52,62).
- When the toggle request answers with an error body, the like button still decrements its
  count. The error body has no `liked` field, and `undefined` is falsy
  (src/components/like-button.tsx:43-45). `LikeButton.RefusedToggleLowersCount` states this.
- The route protection is in `src/middelware.ts`, a misspelt file name that Next.js does not
  load as middleware. `Middleware` models the file's callbacks as if loaded.

## Model

| member | source | states |
|---|---|---|
| Strings.Trim | src/app/api/tags/route.ts:35-39 | `trim` gives a slice of the input with only white space before and after it; the slice is empty exactly when the input is all white space, and otherwise it begins and ends with a non-space |
| Strings.TrimStart | src/app/api/tags/route.ts:39 | the result is a suffix of the input, everything dropped is white space, and it starts with a non-space |
| Strings.TrimEnd | src/app/api/tags/route.ts:39 | the result is a prefix of the input, everything dropped is white space, and it ends with a non-space |
| Strings.Lower | src/app/api/tags/route.ts:39 | `toLowerCase` keeps the length and lower-cases each character in place |
| Strings.LowerIdempotent | src/app/api/tags/route.ts:39-43 | lower-casing twice is lower-casing once, so a normalised name compares equal to `LOWER(name)` of itself |
| Strings.LowerKeepsBlank | src/components/tag-input.tsx:54-55 | lower-casing neither creates nor removes white space, so blankness survives normalisation |
| Strings.Normalize | src/components/tag-input.tsx:54 | `trim().toLowerCase()`, also applied by `POST /api/tags` at src/app/api/tags/route.ts:39: empty exactly when the name is blank, already lower-case, and no longer than the name |
| Strings.ContainsIffOccurs | src/components/tag-sidebar.tsx:20 | the left-to-right `includes` scan holds exactly when some suffix of the text starts with the searched string |
| Strings.BeforeFirst | src/app/api/likes/route.ts:9 | `split(',')[0]` is a prefix with no comma, and it stops exactly at the first comma when there is one |
| Strings.NatToDecimal | src/app/api/upload/route.ts:34 | `String(n)` is a non-empty run of decimal digits with no leading zero |
| Strings.ParseInt | src/app/api/likes/route.ts:48 | `parseInt` without a radix: it skips leading white space, reads one sign, takes a `0x`/`0X` prefix as base 16, then reads the longest digit run, which is NaN (`None`) when empty; its properties are stated by `ParseIntShape` and `ParseIntOfDecimal` |
| Strings.ParseIntShape | src/app/api/likes/route.ts:48 | blank text, or text whose first non-space character is neither a sign nor a digit, parses to NaN; a leading digit 1-9 gives a number; a number read after `-` is never positive, and one read without it is never negative |
| Strings.Contains | src/components/tag-sidebar.tsx:20 | `includes` as a scan over start positions; `ContainsIffOccurs` relates it to occurrence at an index |
| Strings.DigitPrefix | src/app/api/likes/route.ts:48 | the digit run `parseInt` reads is the longest prefix of digits of the radix |
| Strings.DecimalValue | src/app/api/likes/route.ts:48 | the value of the decimal digits of `n` is `n` |
| Strings.ParseUnsignedOfDecimal | src/app/api/likes/route.ts:48 | reading a natural number's decimal notation gives the number |
| Strings.ParseIntOfDecimal | src/app/api/likes/route.ts:48 | `parseInt(String(n)) == n` for every integer, negative ones included |
| Seqs.Filter | src/components/tag-input.tsx:63 | `filter` keeps exactly the elements passing the test, in order, with the multiplicities they had |
| Seqs.FilterConcat | src/components/tag-input.tsx:63 | filtering a concatenation filters each part, so the kept elements stay in input order |
| Seqs.FilterDropOne | src/app/api/likes/route.ts:64-69 | deleting the one occurrence of a row that passes a test lowers the count of rows passing it by one |
| Seqs.FilterSubMultiset | src/app/api/tags/route.ts:14-17 | a `WHERE` never adds rows: every row of the result occurs in the table at least as often |
| Seqs.SortBy | src/app/api/posts/route.ts:18 | `ORDER BY` returns a permutation of the rows, sorted by the order |
| Seqs.Take | src/app/api/tags/route.ts:17 | `LIMIT n` is the first `min(n, len)` rows |
| Json.Truthy | src/app/api/comments/route.ts:36 | JavaScript truthiness: `undefined`, `null`, `false`, `0` and `""` are falsy, everything else truthy |
| Json.ToJsString | src/app/api/likes/route.ts:48 | `String(v)` as `parseInt` applies it to a body field; `ParseIntOfNumber` and `ParseIntOfNonNumber` give the result |
| Json.ParseIntOfNumber | src/app/api/likes/route.ts:47-48 | `parseInt` of a JSON integer is that integer |
| Json.ParseIntOfNonNumber | src/app/api/likes/route.ts:48-50 | `parseInt` of a missing field, `null` or a boolean is NaN |
| Db.IndexOfName | src/app/api/posts/route.ts:64-65 | the conflict target `tags.name` finds the first row with that name, and none when no row has it |
| Db.Database.constructor | src/app/api/create-tables/route.ts:78-129 | the empty store satisfies every schema constraint, and serial ids start at 1 |
| Auth.Authorize | src/lib/auth.ts:27-43 | a user is returned exactly when username and password both equal the configured values, and it is the fixed administrator `admin-1` with e-mail `<adminUser>@admin.com` and `isAdmin` true |
| Auth.SignIn | src/lib/auth.ts:47-72 | credentials sign-ins always pass; an OAuth sign-in without an e-mail fails; with one, it passes exactly when the e-mail or the name contains ADMIN_USER |
| Auth.JwtClaims | src/lib/auth.ts:74-80 | with a user, the token gets `isAdmin ?? false` and `id ?? 'admin-1'`; without one it is unchanged; name and e-mail are never touched |
| Auth.SessionUser | src/lib/auth.ts:82-88 | an existing session user gets the token's `id` and `isAdmin` and keeps its name and e-mail; a missing user stays missing |
| Auth.Jwt | src/lib/auth.ts:74-80 | the callback updates the token object it was given, to the claims `JwtClaims` describes, and returns it |
| Auth.SessionCallback | src/lib/auth.ts:82-88 | the callback updates `session.user` in place as `SessionUser` describes, and returns the same session |
| Auth.CredentialsLoginMakesAdmin | src/lib/auth.ts:27-88 | valid credentials lead, through `authorize`, `signIn`, `jwt` and `session`, to an administrator session with id `admin-1` |
| Middleware.Authorized | src/middelware.ts:15-22 | the `authorized` callback: on a path starting with `/posts/create` or `/posts/edit` it holds exactly when a token exists with `isAdmin === true`, and on every other path it holds |
| Middleware.RedirectsToSignIn | src/middelware.ts:4-11 | the middleware function redirects on a protected-prefix path exactly when `token?.isAdmin` is falsy |
| Middleware.Matched | src/middelware.ts:27-29 | the matcher selects `/posts/create` and `/posts/edit`, and every path below them |
| Middleware.Handle | src/middelware.ts:3-29 | a matched page is sent to sign-in exactly when the token is not an administrator's; every other request proceeds |
| Middleware.MatchedIsProtected | src/middelware.ts:17-28 | every path the matcher selects is one the callbacks protect |
| Middleware.ProtectedByPrefix | src/middelware.ts:17-18 | protection is by prefix, so any extension of a protected path is protected |
| Middleware.RedirectIffUnauthorized | src/middelware.ts:6-22 | the middleware function redirects exactly where `authorized` refuses |
| Middleware.AdminTokenPasses | src/middelware.ts:15-22 | the token of a credentials sign-in passes every path |
| PostsRoute.MatchesTag | src/app/api/posts/route.ts:14-17 | `tag = ANY(posts.tags)` when `tag` is truthy, case-sensitive exact membership; no filter otherwise |
| PostsRoute.PinnedFirst | src/app/api/posts/route.ts:18 | `ORDER BY is_pinned DESC, created_at DESC` as an ordering relation; `PinnedFirstIsTotalPreorder` shows that it orders every pair transitively |
| PostsRoute.PinnedFirstIsTotalPreorder | src/app/api/posts/route.ts:18 | the posts order is total and transitive, so sorting by it is well defined |
| PostsRoute.ListPosts | src/app/api/posts/route.ts:14-23 | the listing holds exactly the posts whose tags contain the `tag` parameter, all posts when it is absent, with multiplicities; pinned posts precede unpinned ones; `createdAt` is non-increasing within equal pin status |
| PostsRoute.ListPostsWithoutTag | src/app/api/posts/route.ts:19-22 | without a `tag` parameter every post is listed |
| PostsRoute.AuthorName | src/app/api/posts/route.ts:55 | the author is the session name when non-empty, otherwise the e-mail |
| PostsRoute.NewPost | src/app/api/posts/route.ts:45-56 | a row exists exactly when the NOT NULL columns are present; its tags are the supplied list or `[]`; `isPinned` is `!!isPinned`; the author comes from the session; the other fields are the input's |
| PostsRoute.LowerAll | src/app/api/posts/route.ts:62 | each supplied tag is lower-cased in place |
| PostsRoute.Upsert | src/app/api/posts/route.ts:61-69 | one `INSERT ... ON CONFLICT (name) DO UPDATE SET count = count + 1`: the row with that name is incremented, or a row with count 1 is appended; `UpsertStep` and `UpsertKeepsRows` state its effect |
| PostsRoute.UpsertAll | src/app/api/posts/route.ts:60-70 | the loop's upserts, one per name in order; `UpsertAllCount`, `UpsertAllNames`, `UpsertAllUnique` and `UpsertAllKeepsRows` state its effect |
| PostsRoute.UpsertStep | src/app/api/posts/route.ts:61-69 | one upsert keeps names unique, adds one to the count of its name only, and adds a row for that name only |
| PostsRoute.UpsertKeepsRows | src/app/api/posts/route.ts:61-69 | one upsert removes and moves no row and changes no row with another name |
| PostsRoute.UpsertAllUnique | src/app/api/posts/route.ts:59-71 | the upsert loop never makes two rows with one name |
| PostsRoute.UpsertAllCount | src/app/api/posts/route.ts:59-71 | after the loop each name's count is its old count, 0 when it had no row, plus the number of times it was supplied |
| PostsRoute.UpsertAllNames | src/app/api/posts/route.ts:59-71 | a name has a row after the loop exactly when it had one before or was supplied |
| PostsRoute.UpsertAllKeepsRows | src/app/api/posts/route.ts:59-71 | no tag row is removed, and rows whose name was not supplied are unchanged |
| PostsRoute.CreatePost | src/app/api/posts/route.ts:33-78 | a non-administrator gets 403 with no change; a refused insert gets 500 and changes only the post-id counter, which moves on by one; otherwise the post is appended, the tags table is the ordered upserts of the lowered tags, counts satisfy the closed form, and the likes and comments tables are untouched |
| LikesRoute.ClientIp | src/app/api/likes/route.ts:6-13 | the address is the trimmed text before the first comma of a non-empty `x-forwarded-for`, so it has no comma and no space at its ends; else a non-empty `x-real-ip`; else `"unknown"` |
| LikesRoute.ClientIpFirstHop | src/app/api/likes/route.ts:8-9 | only the first hop of the forwarding chain, trimmed, is used |
| LikesRoute.ClientIpSingleHop | src/app/api/likes/route.ts:8-9 | a header with a single entry gives that entry, trimmed |
| LikesRoute.HasLiked | src/app/api/likes/route.ts:30-34 | the existence query: a row with this post id and this address is present |
| LikesRoute.LikeCount | src/app/api/likes/route.ts:25-27 | `count(*)` of the rows of the post: at most the table's size, and positive whenever some client likes the post |
| LikesRoute.Toggle | src/app/api/likes/route.ts:57-77 | the table after a toggle: every row for (post, address) is deleted when there is one, otherwise one such row is inserted; the `Toggle*` lemmas state its effect |
| LikesRoute.ToggleFlips | src/app/api/likes/route.ts:63-77 | a toggle flips whether the client likes the post |
| LikesRoute.ToggleKeepsOthers | src/app/api/likes/route.ts:64-75 | a toggle leaves the multiplicity of every other row unchanged |
| LikesRoute.ToggleKeepsNoDuplicates | src/app/api/likes/route.ts:57-75 | a toggle keeps at most one like per post and address |
| LikesRoute.ToggleTwice | src/app/api/likes/route.ts:63-77 | two toggles restore the table's rows; starting with no like they restore the exact sequence |
| LikesRoute.ToggleCount | src/app/api/likes/route.ts:63-75 | a toggle lowers the post's like count by one when the client liked it, and raises it by one otherwise |
| LikesRoute.ToggleKeepsOtherCounts | src/app/api/likes/route.ts:64-75 | a toggle leaves every other post's like count unchanged |
| LikesRoute.ToggleReferencesPosts | src/app/api/likes/route.ts:72-75 | a toggle the foreign key allows keeps every like pointing at an existing post |
| LikesRoute.ToggleConsistent | src/app/api/likes/route.ts:57-77 | a toggle the foreign key allows keeps every schema constraint |
| LikesRoute.Status | src/app/api/likes/route.ts:16-43 | a response fails exactly when `postId` is missing or NaN; a missing `postId` gets 400; a NaN id gets 500; otherwise `count` is the number of rows for the post across all addresses, and `liked` holds exactly when this client's row exists |
| LikesRoute.StatusAfterToggle | src/app/api/likes/route.ts:20-77 | after its own toggle a client reads the flag flipped and the count moved by one |
| LikesRoute.ToggleLike | src/app/api/likes/route.ts:45-82 | an id that parses to NaN or 0 gets 400 with no change; an existing like is deleted (`liked: false`); otherwise a like is inserted (`liked: true`), or refused with 500 when the post does not exist; other tables are untouched |
| TagsRoute.NameContains | src/app/api/tags/route.ts:15 | `name LIKE '%search%'`, read as a literal substring test |
| TagsRoute.ByCountDescIsTotalPreorder | src/app/api/tags/route.ts:16-20 | `ORDER BY count DESC` is total and transitive |
| TagsRoute.TopOfSorted | src/app/api/tags/route.ts:16-17 | the first rows of an ordered result are ordered, and every row the `LIMIT` drops comes after each row it keeps |
| TagsRoute.ListTags | src/app/api/tags/route.ts:6-23 | counts are non-increasing, and the result is a sub-multiset of the table; without a search the result is a permutation of all tags; with one, it holds `min(10, matches)` rows, each a stored tag whose name contains the search |
| TagsRoute.SearchKeepsTopCounts | src/app/api/tags/route.ts:14-17 | a matching tag the limit leaves out has a count no higher than any listed tag |
| TagsRoute.FindLower | src/app/api/tags/route.ts:42-43 | the lookup finds the first row whose lower-cased name equals the normalised name, and none when there is no such row |
| TagsRoute.CreateTag | src/app/api/tags/route.ts:31-60 | a falsy or blank name gets 400, and a truthy non-string gets 500, both with no change; otherwise a row whose lowered name matches is returned with 200 and no change, or else `(trim+lower name, 0)` is appended and returned with 201 |
| TagsRoute.CreateTagKeepsUnique | src/app/api/tags/route.ts:50-53 | creating a tag keeps tag names unique |
| TagsRoute.CreateTagIdempotent | src/app/api/tags/route.ts:42-55 | repeating the request adds nothing and answers 200 with the same row |
| TagsRoute.AddTag | src/app/api/tags/route.ts:31-60 | the table becomes `CreateTag`'s table, the response is its response, the other tables are untouched |
| CommentsRoute.Summaries | src/app/api/comments/route.ts:16-21 | the projection keeps id, authorName, content and createdAt of each row, in order, and nothing else |
| CommentsRoute.NewestFirstIsTotalPreorder | src/app/api/comments/route.ts:23 | `ORDER BY created_at DESC` is total and transitive |
| CommentsRoute.PostComments | src/app/api/comments/route.ts:16-23 | the entries are the projections of the post's comments, each as often as it occurs there, in non-increasing `createdAt` order |
| CommentsRoute.SummariesPermute | src/app/api/comments/route.ts:16-23 | reordering the rows reorders their projections the same way, so the `ORDER BY` and the column selection can be taken in either order |
| CommentsRoute.SummariesOfSorted | src/app/api/comments/route.ts:16-23 | the projection of the sorted rows of a post lists exactly that post's comments |
| CommentsRoute.ListComments | src/app/api/comments/route.ts:7-30 | a missing `postId` gets 400; a NaN id fails with 500; otherwise the listing of that post |
| CommentsRoute.CreateComment | src/app/api/comments/route.ts:32-61 | a body lacking any of the four fields gets 400 with no change; a NaN post id gets 500 with no change; an unknown post gets 500 and changes only the comment-id counter, which moves on by one; otherwise exactly one row is appended, storing `hash(password)` and not the password, and the answer is that row without its hash |
| CommentsRoute.AppendCommentConsistent | src/app/api/comments/route.ts:46-51 | storing a comment with the next id on an existing post keeps the schema constraints |
| CommentsRoute.CreatedCommentListed | src/app/api/comments/route.ts:16-51 | a stored comment appears in its post's listing, under its id |
| CommentsRoute.OtherPostListingLength | src/app/api/comments/route.ts:22 | a comment on another post does not change this post's listing length |
| UploadRoute.StoredName | src/app/api/upload/route.ts:34 | the stored name is longer than the original and contains the separator `-` |
| UploadRoute.StoredNameParts | src/app/api/upload/route.ts:33-34 | the text before the first `-` reads back as the timestamp, and the rest is the original name |
| UploadRoute.Upload | src/app/api/upload/route.ts:4-52 | success exactly when the `upload` field holds a file of at most 5 MiB (5 MiB itself is accepted), of an `image/` type, and the store takes it; the reply carries only the URL; a 500 comes exactly from a failed store or from a non-empty string in the field; every other refusal gives 400 |
| UploadRoute.TextFieldRejected | src/app/api/upload/route.ts:9-25 | a string in the `upload` field gets 400 when it is empty, and 500 otherwise, when `type.startsWith` is read from it |
| UploadRoute.OversizeRefused | src/app/api/upload/route.ts:17-22 | an oversize file is refused with 400 whatever its type |
| UploadRoute.NonImageRefused | src/app/api/upload/route.ts:25-30 | a file of allowed size whose type does not start with `image/` is refused with 400, and the store is never asked |
| UploadRoute.PlainTextRefused | src/app/api/upload/route.ts:25-30 | for example, a `text/plain` file is refused with 400 |
| TagInput.AddTagTo | src/components/tag-input.tsx:53-56 | the trimmed, lower-cased name is appended exactly when it is non-empty and not yet listed; otherwise the list is unchanged |
| TagInput.AddTagKeepsNoDuplicates | src/components/tag-input.tsx:55-56 | adding keeps the list free of duplicates |
| TagInput.AddTagTwice | src/components/tag-input.tsx:53-56 | adding the same name twice is adding it once |
| TagInput.RemoveAll | src/components/tag-input.tsx:62-64 | every occurrence of the value goes, and every other tag keeps its multiplicity |
| TagInput.RemoveAllConcat | src/components/tag-input.tsx:63 | removal is piecewise, so the remaining tags keep their order |
| TagInput.RemoveLast | src/components/tag-input.tsx:72-73 | without duplicates, removing the last tag's value leaves exactly the tags before it |
| TagInput.SuggestionsFor | src/components/tag-input.tsx:40-50 | the effect's list: the suggestible tags in fetched order for non-blank input, none otherwise; `SuggestionsMembers` and `SuggestionsIgnoreCase` state its properties |
| TagInput.SuggestionsMembers | src/components/tag-input.tsx:39-51 | for non-blank input the suggestions are exactly the fetched tags whose lower-cased name contains the lower-cased input and that are not selected, in fetched order; for blank input there are none |
| TagInput.SuggestionsIgnoreCase | src/components/tag-input.tsx:42 | the input's letter case does not change the suggestions |
| TagInput.TagInputState.constructor | src/components/tag-input.tsx:19-22 | the editor starts with empty text, no suggestions shown and no fetched tags |
| TagInput.TagInputState.Refresh | src/components/tag-input.tsx:39-51 | the suggestion effect leaves the suggestions and their visibility in step with the text, the fetched tags and the list |
| TagInput.TagInputState.ReceiveAllTags | src/components/tag-input.tsx:29-37 | the fetched tags are stored and the suggestions recomputed |
| TagInput.TagInputState.Type | src/components/tag-input.tsx:105 | editing the text stores it and recomputes the suggestions |
| TagInput.TagInputState.AddTag | src/components/tag-input.tsx:53-60 | the list becomes `AddTagTo` of the old list; a successful add clears the text and hides the suggestions; an unsuccessful one changes nothing; no duplicate appears |
| TagInput.TagInputState.RemoveTag | src/components/tag-input.tsx:62-64 | the list loses every occurrence of the value, the text stays, and the suggestions are recomputed |
| TagInput.TagInputState.KeyDown | src/components/tag-input.tsx:66-75 | Enter with non-blank text adds it; Backspace with empty text and a non-empty list removes the last tag, and without duplicates leaves exactly the tags before it; every other key changes nothing |
| TagInput.TagInputState.ClickSuggestion | src/components/tag-input.tsx:77-79 | a click adds the suggestion's name |
| LikeButton.AnswerOf | src/components/like-button.tsx:43 | the client reads a `liked` body exactly from a successful reply, with the server's flag, and an error body from every failure |
| LikeButton.NextLiked | src/components/like-button.tsx:44 | the shown flag becomes the answer's `liked`; an error body reads as not liked; no answer keeps the flag |
| LikeButton.NextCount | src/components/like-button.tsx:45 | the shown count moves by +1 when the answer says liked and by -1 otherwise, error body included; no answer keeps it |
| LikeButton.MirrorAfterToggle | src/components/like-button.tsx:43-45 | when the shown state matched the table, after a successful toggle it matches the table again |
| LikeButton.RefusedToggleLowersCount | src/components/like-button.tsx:43-45 | a refused toggle (400 or 500) changes no row, yet lowers the shown count by one |
| LikeButton.LikeButtonState.constructor | src/components/like-button.tsx:11-13 | the button starts not liked, with count 0 and not loading |
| LikeButton.LikeButtonState.ReceiveStatus | src/components/like-button.tsx:15-24 | a status answer replaces the shown flag and count; a failed fetch changes nothing |
| LikeButton.LikeButtonState.BeginToggle | src/components/like-button.tsx:30-33 | a click while loading sends nothing; otherwise it sends and sets `loading`; the shown values stay |
| LikeButton.LikeButtonState.FinishToggle | src/components/like-button.tsx:43-50 | the answer is applied as `NextLiked`/`NextCount` say, and `loading` is cleared whatever happened |
| PostCard.StripTags | src/components/post-card.tsx:26 | the stripped text is no longer than the input and has no character the input lacks |
| PostCard.StripPlain | src/components/post-card.tsx:26 | text without `<` is unchanged |
| PostCard.StripKeepsPlainPrefix | src/components/post-card.tsx:26 | text before the first `<` is kept in place, in front of the stripped rest |
| PostCard.StripDropsSpan | src/components/post-card.tsx:26 | a span from `<` to the next `>` is removed entirely |
| PostCard.StripKeepsUnclosed | src/components/post-card.tsx:26 | a `<` with no later `>` is kept |
| PostCard.StripLeavesNoTagSpan | src/components/post-card.tsx:26 | the result has no `<` followed later by `>` |
| PostCard.StripWithoutTagSpan | src/components/post-card.tsx:26 | text with no `<` followed later by `>` is unchanged |
| PostCard.StripIdempotent | src/components/post-card.tsx:26 | stripping twice is stripping once |
| PostCard.Excerpt | src/components/post-card.tsx:30-31 | a non-empty stored excerpt is shown as is; otherwise the first `min(150, len)` characters of the stripped content followed by `...` |
| PostCard.VisibleTags | src/components/post-card.tsx:60 | the first `min(3, n)` tags are shown, in order |
| PostCard.Overflow | src/components/post-card.tsx:69-72 | the `+k` label appears exactly when there are more than three tags, and `k` is the number not shown |
| TagSidebar.FilterTags | src/components/tag-sidebar.tsx:18-21 | a blank term returns all tags in order; otherwise exactly the tags whose lower-cased name contains the lower-cased term |
| TagSidebar.FilterTagsConcat | src/components/tag-sidebar.tsx:20 | the filter works piecewise, so it keeps the list's order |
| TagSidebar.FilterTagsIgnoresCase | src/components/tag-sidebar.tsx:20 | terms that differ only in letter case select the same tags |
| TagSidebar.UntrimmedTermMatters | src/components/tag-sidebar.tsx:19-20 | the term is tested untrimmed: ` vue` does not select the tag `vue` |

## Left out

- Strings.Lower: lower-cases ASCII letters only. `toLowerCase` also folds non-ASCII letters,
  and PostgreSQL `LOWER` does too.
- Strings: there is no UTF-16 encoding. A character is a Unicode scalar value, so
  `substring(0, 150)` counts characters, not code units.
- Seqs.SortBy: the order among rows with equal sort keys is the model's. The database
  leaves that order unspecified.
- CommentsRoute.PostComments, TagsRoute.ListTags and PostsRoute.ListPosts: each is stated
  up to the order among equal sort keys, for the same reason.
- Integers are unbounded. The range of the INTEGER columns, and `parseInt` results that are
  floats beyond 2^53, are not modelled.
- JSON numbers are integers only. Fractional post ids, for which `parseInt("1.5")` is 1, are
  not modelled.
- TagsRoute.ListTags: the search is a literal substring test. `%` and `_` in the search text
  would act as `LIKE` wildcards in the database.
- The `id` and `created_at` columns of `tags`, `likes.user_id` and `comments.user_id` are not
  modelled. The handlers return these columns as stored, and the tag components key their
  lists by `tag.id`, but nothing is computed from them. The model's replies omit them.
- PostsRoute.CreatePost: `tags` is a list of strings. Suppose an element is not a string,
  as in `"tags": ["a", 5]`. Then the source stores the post, upserts the tags before that element,
  and fails with 500 when it calls `toLowerCase` on the element. This partial 500 is not
  modelled.
- UploadRoute.Upload: a body that is not form data, which makes `request.formData()` throw
  and gives 500, is not modelled.
- Error message texts are not modelled; only status codes are.
- A request body that is not JSON, which makes `request.json()` throw and gives 500, is not
  modelled.
- CommentsRoute.CommentInput: `authorName`, `content` and `password` are strings when
  present. A JSON number or boolean in those fields is not modelled.
- The bcrypt cost factor and salt are not modelled. `hash` is an arbitrary function
  parameter.
- The Vercel Blob `put` is a parameter, and `Date.now()` is a timestamp parameter.
- The DOM branch of `stripHtmlTags` (`innerHTML` and `textContent`) is not modelled; it runs
  only in a browser.
- Concurrency is not modelled. Each request, and each client event, is one atomic step. So
  the read-then-write race of the like toggle is out, and so are the per-tag upsert loop and
  the overlap of asynchronous clicks that `loading` guards against.
- LikeButton.LikeButtonState.ReceiveStatus: an error body from the status fetch would store
  `undefined`. The model takes only a well-formed answer or a failed fetch.
- The database update of the `users.is_admin` flag inside `signIn` is not modelled. It is a
  side effect whose failure is only logged.
- The NextAuth provider machinery is not modelled: Google, GitHub, the Drizzle adapter and
  the session cookie.
- The post update, delete and pin routes are not modelled, and neither are the comment
  edit/delete route, the CKEditor upload adapter, `getBaseUrl`, or the pages and other
  components.
- LikesRoute.ToggleTwice: after an unlike followed by a like, the table is restored as a
  multiset. The re-inserted row goes to the end, and SQL tables are unordered.
