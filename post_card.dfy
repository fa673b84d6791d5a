/**
 * The post preview card: the server-side HTML stripping (`html.replace(/<[^>]*>/g, '')`), the
 * excerpt rule, and the cut-off of the tag list.
 */
module PostCard {
  import opened Wrappers
  import opened Seqs
  import opened Json

  /** Some `<` is followed, somewhere later, by a `>`. */
  predicate HasTagSpan(s: string) {
    exists i, j :: 0 <= i < j < |s| && s[i] == '<' && s[j] == '>'
  }

  /** The position of the first `c` in `s`. */
  function IndexOf(s: string, c: char): (r: nat)
    requires c in s
    ensures r < |s| && s[r] == c && c !in s[..r]
  {
    if s[0] == c then 0 else 1 + IndexOf(s[1..], c)
  }

  /**
   * The regular expression scans left to right: a `<` that has a `>` after it starts a match
   * that ends at the first such `>`, and the whole span is dropped; any other character (a `<`
   * with no later `>` included) is kept.
   */
  function StripTags(s: string): (r: string)
    ensures |r| <= |s|
    ensures forall c :: c in r ==> c in s
    decreases |s|
  {
    if s == [] then []
    else if s[0] == '<' && '>' in s[1..] then
      var rest := s[1..][IndexOf(s[1..], '>') + 1..];
      var r := StripTags(rest);
      assert forall c :: c in rest ==> c in s;
      r
    else
      var r := [s[0]] + StripTags(s[1..]);
      assert forall c :: c in s[1..] ==> c in s;
      r
  }

  /** Text without `<` passes through unchanged. */
  lemma {:induction false} StripPlain(s: string)
    requires '<' !in s
    ensures StripTags(s) == s
  {
    if s != [] {
      StripPlain(s[1..]);
      assert s == [s[0]] + s[1..];
    }
  }

  /** Text before the first `<` is kept as it is, in front of the rest. */
  lemma {:induction false} StripKeepsPlainPrefix(plain: string, rest: string)
    requires '<' !in plain
    ensures StripTags(plain + rest) == plain + StripTags(rest)
  {
    if plain == [] {
      assert plain + rest == rest;
    } else {
      var s := plain + rest;
      assert plain[0] in plain;
      assert s[0] == plain[0] && s[1..] == plain[1..] + rest;
      StripKeepsPlainPrefix(plain[1..], rest);
      assert StripTags(s) == [s[0]] + StripTags(s[1..]);
      assert plain == [plain[0]] + plain[1..];
    }
  }

  /** A span from `<` to the next `>` is dropped entirely. */
  lemma StripDropsSpan(inner: string, rest: string)
    requires '>' !in inner
    ensures StripTags("<" + inner + ">" + rest) == StripTags(rest)
  {
    var s := "<" + inner + ">" + rest;
    var t := s[1..];
    assert t == inner + ">" + rest;
    assert t[|inner|] == '>';
    var k := IndexOf(t, '>');
    assert k == |inner|;
    assert t[k + 1..] == rest;
  }

  /** After stripping, no `<` is followed by a `>`. */
  lemma {:induction false} StripLeavesNoTagSpan(s: string)
    ensures !HasTagSpan(StripTags(s))
    decreases |s|
  {
    if s != [] {
      if s[0] == '<' && '>' in s[1..] {
        StripLeavesNoTagSpan(s[1..][IndexOf(s[1..], '>') + 1..]);
      } else {
        StripLeavesNoTagSpan(s[1..]);
      }
    }
  }

  /** Text with no tag span passes through unchanged. */
  lemma {:induction false} StripWithoutTagSpan(s: string)
    requires !HasTagSpan(s)
    ensures StripTags(s) == s
  {
    if s != [] {
      StripWithoutTagSpan(s[1..]);
      assert s == [s[0]] + s[1..];
    }
  }

  /** Stripping twice is stripping once. */
  lemma StripIdempotent(s: string)
    ensures StripTags(StripTags(s)) == StripTags(s)
  {
    StripLeavesNoTagSpan(s);
    StripWithoutTagSpan(StripTags(s));
  }

  /** A `<` with no `>` after it survives. */
  lemma StripKeepsUnclosed(rest: string)
    requires '>' !in rest
    ensures StripTags("<" + rest) == "<" + StripTags(rest)
  {
    assert ("<" + rest)[1..] == rest;
  }

  const ExcerptLength: nat := 150

  /**
   * `post.excerpt || stripHtmlTags(post.content).substring(0, 150) + '...'`: the stored excerpt
   * when non-empty, otherwise the first 150 characters of the stripped content and an ellipsis.
   */
  function Excerpt(excerpt: Option<string>, content: string): (r: string)
    ensures Filled(excerpt) ==> r == excerpt.value
    ensures !Filled(excerpt) ==>
      && |r| == Min(ExcerptLength, |StripTags(content)|) + 3
      && r[..|r| - 3] == StripTags(content)[..|r| - 3]
      && r[|r| - 3..] == "..."
  {
    if Filled(excerpt) then excerpt.value else Take(StripTags(content), ExcerptLength) + "..."
  }

  const VisibleTagCount: nat := 3

  /** `post.tags.slice(0, 3)`: the first three tags, in order. */
  function VisibleTags(tags: Option<seq<string>>): (r: seq<string>)
    ensures |r| == Min(VisibleTagCount, |tags.GetOr([])|)
    ensures r == tags.GetOr([])[..|r|]
  {
    Take(tags.GetOr([]), VisibleTagCount)
  }

  /** The `+n` label: shown exactly when there are more than three tags, with the number hidden. */
  function Overflow(tags: Option<seq<string>>): (r: Option<nat>)
    ensures r.Some? <==> |tags.GetOr([])| > VisibleTagCount
    ensures r.Some? ==> r.value + |VisibleTags(tags)| == |tags.GetOr([])|
  {
    var n := |tags.GetOr([])|;
    if n > VisibleTagCount then Some(n - VisibleTagCount) else None
  }
}
