/** The sidebar's tag search: a case-insensitive substring filter over the fetched tag list. */
module TagSidebar {
  import opened Strings
  import opened Seqs
  import opened Db

  /** `tag.name.toLowerCase().includes(term)` for an already lower-cased `term`. */
  function NameHas(term: string): TagRow -> bool {
    (tag: TagRow) => Contains(Lower(tag.name), term)
  }

  /**
   * `filteredTags`: all tags when the search term is blank; otherwise the tags whose lower-cased
   * name contains the lower-cased term (the term itself is not trimmed), in their order.
   */
  function FilterTags(tags: seq<TagRow>, searchTerm: string): (r: seq<TagRow>)
    ensures IsBlank(searchTerm) ==> r == tags
    ensures !IsBlank(searchTerm) ==>
      forall tag :: tag in r <==> tag in tags && Contains(Lower(tag.name), Lower(searchTerm))
    ensures |r| <= |tags|
  {
    if IsBlank(searchTerm) then tags else Filter(tags, NameHas(Lower(searchTerm)))
  }

  /** The filter keeps the list's order: it works piecewise on a concatenation. */
  lemma FilterTagsConcat(a: seq<TagRow>, b: seq<TagRow>, searchTerm: string)
    ensures FilterTags(a + b, searchTerm) == FilterTags(a, searchTerm) + FilterTags(b, searchTerm)
  {
    if !IsBlank(searchTerm) {
      FilterConcat(a, b, NameHas(Lower(searchTerm)));
    }
  }

  /** Two terms that differ only in letter case select the same tags. */
  lemma FilterTagsIgnoresCase(tags: seq<TagRow>, a: string, b: string)
    requires Lower(a) == Lower(b)
    ensures FilterTags(tags, a) == FilterTags(tags, b)
  {
    LowerKeepsBlank(a);
    LowerKeepsBlank(b);
    assert IsBlank(a) == IsBlank(b);
    assert NameHas(Lower(a)) == NameHas(Lower(b));
  }

  /** The term is not trimmed: a leading space keeps `vue` itself from matching ` vue`. */
  lemma UntrimmedTermMatters()
    ensures FilterTags([TagRow("vue", 1)], " vue") == []
  {
    var term := " vue";
    assert Lower(term) == term;
    assert Lower("vue") == "vue";
    assert [TagRow("vue", 1)][1..] == [];
    assert !Contains("vue", term);
    assert !IsBlank(term) by { assert !IsSpace(term[1]); }
  }
}
