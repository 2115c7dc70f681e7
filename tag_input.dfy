/**
 * The tag editor of src/components/notes/TagInput.tsx. The component owns
 * only the text field; the tag list is its `tags` prop, and a change is the
 * list it passes to `onChange`. Each handler is modelled as a function from
 * the current tags and field text to what it emits and the new field text.
 */
module TagInput {
  import opened Wrappers
  import opened Text
  import opened NoteTypes

  /**
   * The effect of a handler: the list passed to `onChange` (`None` when
   * `onChange` is not called) and the text field's value afterwards.
   */
  datatype TagEdit = TagEdit(emitted: Option<seq<string>>, input: string)

  /** `tags || []`: the list the editor works on. */
  function CurrentTags(tags: Option<seq<string>>): (r: seq<string>)
    ensures tags.None? ==> r == []
    ensures tags.Some? ==> r == tags.value
  {
    TagsOrEmpty(tags)
  }

  /** The tag list once the parent has applied what the handler emitted. */
  function Applied(current: seq<string>, e: TagEdit): seq<string> {
    e.emitted.GetOr(current)
  }

  /** Some existing tag equals `tag` when both are lowercased. */
  predicate HasTagIgnoringCase(current: seq<string>, tag: string) {
    exists i :: 0 <= i < |current| && Lower(current[i]) == Lower(tag)
  }

  /** No two tags are equal when lowercased. */
  ghost predicate NoCaseDuplicates(tags: seq<string>) {
    forall i, j :: 0 <= i < j < |tags| ==> Lower(tags[i]) != Lower(tags[j])
  }

  /**
   * `addTag(tag)`: appends the trimmed tag when it is not blank and no
   * existing tag matches it ignoring case; clears the field in every case.
   */
  function AddTag(current: seq<string>, tag: string): (e: TagEdit)
    ensures e.input == ""
    ensures Blank(tag) ==> e.emitted == None
    ensures e.emitted.Some? <==> !Blank(tag) && !HasTagIgnoringCase(current, Trim(tag))
    ensures e.emitted.Some? ==> e.emitted.value == current + [Trim(tag)]
  {
    var t := Trim(tag);
    if t != "" && !HasTagIgnoringCase(current, t) then TagEdit(Some(current + [t]), "")
    else TagEdit(None, "")
  }

  /** Adding keeps the list free of case-insensitive duplicates. */
  lemma AddTagKeepsNoCaseDuplicates(current: seq<string>, tag: string)
    requires NoCaseDuplicates(current)
    ensures NoCaseDuplicates(Applied(current, AddTag(current, tag)))
  {
    var e := AddTag(current, tag);
    if e.emitted.Some? {
      var r := current + [Trim(tag)];
      forall i, j | 0 <= i < j < |r| ensures Lower(r[i]) != Lower(r[j]) {
        if j == |current| {
          assert r[i] == current[i];
        } else {
          assert r[i] == current[i] && r[j] == current[j];
        }
      }
    }
  }

  /** Adding the same tag twice leaves the list as adding it once. */
  lemma AddTagTwice(current: seq<string>, tag: string)
    ensures var once := Applied(current, AddTag(current, tag));
      Applied(once, AddTag(once, tag)) == once
  {
    var once := Applied(current, AddTag(current, tag));
    if AddTag(current, tag).emitted.Some? {
      assert once[|current|] == Trim(tag);
      assert HasTagIgnoringCase(once, Trim(tag));
    }
  }

  /** `currentTags.filter((_, i) => i !== index)`. */
  function WithoutIndex(s: seq<string>, index: int): (r: seq<string>)
    ensures 0 <= index < |s| ==> r == s[..index] + s[index + 1..]
    ensures !(0 <= index < |s|) ==> r == s
  {
    if s == [] then []
    else
      var rest := WithoutIndex(s[1..], index - 1);
      assert s == [s[0]] + s[1..];
      if index == 0 then rest
      else
        assert 0 < index < |s| ==> s[..index] == [s[0]] + s[1..][..index - 1];
        [s[0]] + rest
  }

  /** `removeTag(index)`: emits the list without position `index`; the field is untouched. */
  function RemoveTag(current: seq<string>, input: string, index: int): (e: TagEdit)
    ensures e.input == input
    ensures 0 <= index < |current| ==> e.emitted == Some(current[..index] + current[index + 1..])
    ensures !(0 <= index < |current|) ==> e.emitted == Some(current)
  {
    TagEdit(Some(WithoutIndex(current, index)), input)
  }

  /** Removing a tag keeps the list free of case-insensitive duplicates. */
  lemma RemoveTagKeepsNoCaseDuplicates(current: seq<string>, input: string, index: int)
    requires NoCaseDuplicates(current)
    ensures NoCaseDuplicates(Applied(current, RemoveTag(current, input, index)))
  {
    if 0 <= index < |current| {
      var r := current[..index] + current[index + 1..];
      forall i, j | 0 <= i < j < |r| ensures Lower(r[i]) != Lower(r[j]) {
        var i', j' := if i < index then i else i + 1, if j < index then j else j + 1;
        assert r[i] == current[i'] && r[j] == current[j'];
      }
    }
  }

  /**
   * `handleKeyDown`: Enter with a non-blank field adds the trimmed text;
   * Backspace on an empty field removes the last tag if there is one; any
   * other key leaves tags and field alone.
   */
  function HandleKeyDown(current: seq<string>, input: string, key: string): (e: TagEdit)
    ensures key == "Enter" && !Blank(input) ==>
      && e.input == ""
      && (e.emitted.Some? <==> !HasTagIgnoringCase(current, Trim(input)))
      && (e.emitted.Some? ==> e.emitted.value == current + [Trim(input)])
    ensures key == "Backspace" && input == "" && |current| > 0 ==>
      e == TagEdit(Some(current[..|current| - 1]), input)
    ensures !(key == "Enter" && !Blank(input)) && !(key == "Backspace" && input == "" && |current| > 0) ==>
      e == TagEdit(None, input)
  {
    if key == "Enter" && Trim(input) != "" then
      TrimIdempotent(input);
      AddTag(current, Trim(input))
    else if key == "Backspace" && input == "" && |current| > 0 then
      assert current[..|current| - 1] + current[|current|..] == current[..|current| - 1];
      RemoveTag(current, input, |current| - 1)
    else
      TagEdit(None, input)
  }

  /** The Add button: like Enter, adds the trimmed field text when it is not blank. */
  function AddButton(current: seq<string>, input: string): (e: TagEdit)
    ensures !Blank(input) ==>
      && e.input == ""
      && (e.emitted.Some? <==> !HasTagIgnoringCase(current, Trim(input)))
      && (e.emitted.Some? ==> e.emitted.value == current + [Trim(input)])
    ensures Blank(input) ==> e == TagEdit(None, input)
  {
    if Trim(input) != "" then
      TrimIdempotent(input);
      AddTag(current, Trim(input))
    else
      TagEdit(None, input)
  }
}
