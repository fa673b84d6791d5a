/**
 * The tag-list editor used by the post form. The pure list operations come first; the
 * component's state (the typed text and the suggestion drop-down) is a class whose methods are
 * the event handlers, each followed by the suggestion effect when its inputs changed.
 */
module TagInput {
  import opened Strings
  import opened Seqs
  import opened Db

  /**
   * The list after `addTag(tagName)`: the normalised name appended when it is non-empty and
   * not in the list yet; otherwise the list as it was.
   */
  function AddTagTo(tags: seq<string>, tagName: string): (r: seq<string>)
    ensures Normalize(tagName) != "" && Normalize(tagName) !in tags ==> r == tags + [Normalize(tagName)]
    ensures Normalize(tagName) == "" || Normalize(tagName) in tags ==> r == tags
    ensures Normalize(tagName) in r || IsBlank(tagName)
  {
    var t := Normalize(tagName);
    LowerKeepsBlank(Trim(tagName));
    if t != "" && t !in tags then tags + [t] else tags
  }

  /** Adding never introduces a duplicate. */
  lemma AddTagKeepsNoDuplicates(tags: seq<string>, tagName: string)
    requires NoDuplicates(tags)
    ensures NoDuplicates(AddTagTo(tags, tagName))
  {
    var t := Normalize(tagName);
    if t != "" && t !in tags {
      AppendNoDuplicates(tags, t);
    }
  }

  /** Adding the same name twice is adding it once. */
  lemma AddTagTwice(tags: seq<string>, tagName: string)
    ensures AddTagTo(AddTagTo(tags, tagName), tagName) == AddTagTo(tags, tagName)
  {
  }

  function Differs(tag: string): string -> bool {
    (t: string) => t != tag
  }

  /** `value.filter(tag => tag !== tagToRemove)`: every occurrence goes, the rest keep their order. */
  function RemoveAll(tags: seq<string>, tag: string): (r: seq<string>)
    ensures tag !in r
    ensures forall t :: t != tag ==> multiset(r)[t] == multiset(tags)[t]
    ensures tag !in tags ==> r == tags
  {
    var r := Filter(tags, Differs(tag));
    assert tag !in tags ==> r == tags by {
      if tag !in tags {
        FilterKeepsAll(tags, Differs(tag));
      }
    }
    r
  }

  /** Removal works piecewise, so the tags that stay keep their relative order. */
  lemma RemoveAllConcat(a: seq<string>, b: seq<string>, tag: string)
    ensures RemoveAll(a + b, tag) == RemoveAll(a, tag) + RemoveAll(b, tag)
  {
    FilterConcat(a, b, Differs(tag));
  }

  /** Removing the last tag of a list without duplicates leaves the tags before it. */
  lemma RemoveLast(tags: seq<string>)
    requires tags != [] && NoDuplicates(tags)
    ensures RemoveAll(tags, tags[|tags| - 1]) == tags[..|tags| - 1]
  {
    var last := tags[|tags| - 1];
    var init := tags[..|tags| - 1];
    assert tags == init + [last];
    assert last !in init;
    RemoveAllConcat(init, [last], last);
    assert RemoveAll([last], last) == [];
  }

  /** A suggestion: its lower-cased name contains the lower-cased input, and it is not selected yet. */
  function Suggestible(input: string, selected: seq<string>): TagRow -> bool {
    (tag: TagRow) => Contains(Lower(tag.name), Lower(input)) && tag.name !in selected
  }

  /** The suggestion effect's list: the suggestible tags in their order, none for blank input. */
  function SuggestionsFor(allTags: seq<TagRow>, input: string, selected: seq<string>): seq<TagRow> {
    if !IsBlank(input) then Filter(allTags, Suggestible(input, selected)) else []
  }

  /**
   * For non-blank input the suggestions are exactly the suggestible tags, in the order of the
   * fetched list; for blank input there are none.
   */
  lemma SuggestionsMembers(allTags: seq<TagRow>, input: string, selected: seq<string>)
    ensures IsBlank(input) ==> SuggestionsFor(allTags, input, selected) == []
    ensures !IsBlank(input) ==> forall tag :: tag in SuggestionsFor(allTags, input, selected) <==>
      tag in allTags && Contains(Lower(tag.name), Lower(input)) && tag.name !in selected
    ensures !IsBlank(input) ==> forall a, b ::
      SuggestionsFor(a + b, input, selected) == SuggestionsFor(a, input, selected) + SuggestionsFor(b, input, selected)
  {
    if !IsBlank(input) {
      forall a, b
        ensures SuggestionsFor(a + b, input, selected) == SuggestionsFor(a, input, selected) + SuggestionsFor(b, input, selected)
      {
        FilterConcat(a, b, Suggestible(input, selected));
      }
    }
  }

  /** The input's letter case does not change the suggestions. */
  lemma SuggestionsIgnoreCase(allTags: seq<TagRow>, input: string, selected: seq<string>)
    ensures SuggestionsFor(allTags, Lower(input), selected) == SuggestionsFor(allTags, input, selected)
  {
    LowerKeepsBlank(input);
    LowerIdempotent(input);
  }

  datatype Key = Enter | Backspace | OtherKey

  class TagInputState {
    /** The selected tags (the `value` prop, replaced through `onChange`). */
    var value: seq<string>
    var inputValue: string
    var suggestions: seq<TagRow>
    var showSuggestions: bool
    /** The tags fetched from `/api/tags`. */
    var allTags: seq<TagRow>

    /** The state the suggestion effect leaves: it has run on the current input, tags and list. */
    predicate Settled()
      reads this
    {
      && suggestions == SuggestionsFor(allTags, inputValue, value)
      && showSuggestions == !IsBlank(inputValue)
    }

    constructor (initial: seq<string>)
      ensures Settled()
      ensures value == initial && inputValue == "" && allTags == []
      ensures suggestions == [] && !showSuggestions
    {
      value := initial;
      inputValue := "";
      suggestions := [];
      showSuggestions := false;
      allTags := [];
    }

    /** The suggestion effect. */
    method Refresh()
      modifies this
      ensures Settled()
      ensures value == old(value) && inputValue == old(inputValue) && allTags == old(allTags)
    {
      if Trim(inputValue) != "" {
        suggestions := Filter(allTags, Suggestible(inputValue, value));
        showSuggestions := true;
      } else {
        suggestions := [];
        showSuggestions := false;
      }
    }

    /** The tag list arrives from the server. */
    method ReceiveAllTags(tags: seq<TagRow>)
      modifies this
      ensures Settled()
      ensures allTags == tags && value == old(value) && inputValue == old(inputValue)
    {
      allTags := tags;
      Refresh();
    }

    /** The user edits the text box. */
    method Type(text: string)
      modifies this
      ensures Settled()
      ensures inputValue == text && value == old(value) && allTags == old(allTags)
    {
      inputValue := text;
      Refresh();
    }

    /** `addTag`: a successful add also clears the input and hides the suggestions. */
    method AddTag(tagName: string)
      requires Settled()
      modifies this
      ensures Settled()
      ensures value == AddTagTo(old(value), tagName) && allTags == old(allTags)
      ensures value != old(value) ==> inputValue == "" && !showSuggestions && suggestions == []
      ensures value == old(value) ==> unchanged(this)
      ensures NoDuplicates(old(value)) ==> NoDuplicates(value)
    {
      if NoDuplicates(value) {
        AddTagKeepsNoDuplicates(value, tagName);
      }
      var t := Normalize(tagName);
      if t != "" && t !in value {
        value := value + [t];
        inputValue := "";
        showSuggestions := false;
        Refresh();
      }
    }

    /** `removeTag`. */
    method RemoveTag(tag: string)
      requires Settled()
      modifies this
      ensures Settled()
      ensures value == RemoveAll(old(value), tag)
      ensures inputValue == old(inputValue) && allTags == old(allTags)
      ensures NoDuplicates(old(value)) ==> NoDuplicates(value)
    {
      if NoDuplicates(value) {
        FilterNoDuplicates(value, Differs(tag));
      }
      value := RemoveAll(value, tag);
      Refresh();
    }

    /** `handleKeyDown`: Enter adds the typed text; Backspace in an empty box drops the last tag. */
    method KeyDown(key: Key)
      requires Settled()
      modifies this
      ensures Settled()
      ensures allTags == old(allTags)
      ensures key == Enter && !IsBlank(old(inputValue)) ==> value == AddTagTo(old(value), old(inputValue))
      ensures key == Backspace && old(inputValue) == "" && old(value) != [] ==>
        value == RemoveAll(old(value), old(value)[|old(value)| - 1])
      ensures key == Backspace && old(inputValue) == "" && old(value) != [] && NoDuplicates(old(value)) ==>
        value == old(value)[..|old(value)| - 1]
      ensures (|| key == OtherKey
               || (key == Enter && IsBlank(old(inputValue)))
               || (key == Backspace && (old(inputValue) != "" || old(value) == []))) ==> unchanged(this)
    {
      if key == Enter {
        var typed := inputValue;
        if Trim(typed) != "" {
          AddTag(typed);
        }
      } else if key == Backspace && inputValue == "" && |value| > 0 {
        var tags := value;
        if NoDuplicates(tags) {
          RemoveLast(tags);
        }
        RemoveTag(tags[|tags| - 1]);
      }
    }

    /** A click on a suggestion adds its name. */
    method ClickSuggestion(tag: TagRow)
      requires Settled()
      modifies this
      ensures Settled()
      ensures value == AddTagTo(old(value), tag.name) && allTags == old(allTags)
    {
      AddTag(tag.name);
    }
  }
}
