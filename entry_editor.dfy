/** The entry editor: the text and the tag list being edited, the tag input
    field, the rules for adding and removing a tag, and the word count shown
    under the text. Each edit is reported to the caller as a whole entry. */
module EntryEditing {
  import opened Strings
  import opened JournalEntries

  // ---------------------------------------------------------------------
  // tags

  /** A tag as handleAddTag stores it: no white space at either end and no
      upper-case ASCII letter. */
  predicate IsNormalTag(t: string) {
    && (t == [] || (!IsWhitespace(t[0]) && !IsWhitespace(t[|t| - 1])))
    && forall i :: 0 <= i < |t| ==> !('A' <= t[i] <= 'Z')
  }

  /** `newTag.trim().toLowerCase()`: a normal tag, "" exactly for input that
      is all white space. */
  function NormalizeTag(input: string): (t: string)
    ensures IsNormalTag(t)
    ensures t == [] <==> AllWhitespace(input)
  {
    TrimEmpty(input);
    ToLower(Trim(input))
  }

  /** A normal tag is its own normal form. */
  lemma NormalTagFixed(t: string)
    requires IsNormalTag(t)
    ensures NormalizeTag(t) == t
  {
    TrimUnchanged(t);
    assert ToLower(t) == t;
  }

  /** Normalising twice is normalising once. */
  lemma NormalizeIdempotent(input: string)
    ensures NormalizeTag(NormalizeTag(input)) == NormalizeTag(input)
  {
    NormalTagFixed(NormalizeTag(input));
  }

  /** The tag list after handleAddTag with input `input`: the old list kept
      as a prefix and the normal form of the input after it, exactly when
      that is not "" and not yet listed; no duplicate is ever introduced. */
  function AddedTags(tags: seq<string>, input: string): (r: seq<string>)
    ensures |tags| <= |r| <= |tags| + 1 && r[..|tags|] == tags
    ensures forall x :: x in r <==> x in tags || (x == NormalizeTag(input) && x != "")
    ensures NoDuplicates(tags) ==> NoDuplicates(r)
  {
    var t := NormalizeTag(input);
    if t != "" && t !in tags then tags + [t] else tags
  }

  /** Adding the same input again changes nothing. */
  lemma AddTwice(tags: seq<string>, input: string)
    ensures AddedTags(AddedTags(tags, input), input) == AddedTags(tags, input)
  {
  }

  /** `tags.filter(t => t !== tag)`: the list without any occurrence of
      `tag`; every other tag keeps its number of occurrences. */
  function RemovedTags(tags: seq<string>, tag: string): (r: seq<string>)
    ensures forall x :: x in r <==> x in tags && x != tag
    ensures forall x :: x != tag ==> Count(r, x) == Count(tags, x)
    ensures Count(r, tag) == 0
    ensures |r| == |tags| - Count(tags, tag)
  {
    if tags == [] then []
    else
      var rest := RemovedTags(tags[1..], tag);
      if tags[0] == tag then rest else [tags[0]] + rest
  }

  /** The filter works element by element, so the remaining tags keep their
      order: it distributes over concatenation. */
  lemma {:induction false} RemovedTagsAppend(a: seq<string>, b: seq<string>, tag: string)
    ensures RemovedTags(a + b, tag) == RemovedTags(a, tag) + RemovedTags(b, tag)
  {
    if a == [] {
      assert a + b == b;
    } else {
      assert (a + b)[0] == a[0];
      assert (a + b)[1..] == a[1..] + b;
      RemovedTagsAppend(a[1..], b, tag);
    }
  }

  /** Removing a tag that is not listed leaves the list as it is. */
  lemma {:induction false} RemoveAbsent(tags: seq<string>, tag: string)
    requires tag !in tags
    ensures RemovedTags(tags, tag) == tags
  {
    if tags != [] {
      RemoveAbsent(tags[1..], tag);
      assert [tags[0]] + tags[1..] == tags;
    }
  }

  /** A list without duplicates stays without duplicates. */
  lemma {:induction false} RemoveKeepsNoDuplicates(tags: seq<string>, tag: string)
    requires NoDuplicates(tags)
    ensures NoDuplicates(RemovedTags(tags, tag))
  {
    if tags != [] {
      assert NoDuplicates(tags[1..]);
      RemoveKeepsNoDuplicates(tags[1..], tag);
      assert tags[0] !in tags[1..];
    }
  }

  /** Removing a tag that was just added restores the list. */
  lemma AddThenRemove(tags: seq<string>, input: string)
    requires NormalizeTag(input) !in tags
    ensures RemovedTags(AddedTags(tags, input), NormalizeTag(input)) == tags
  {
    var t := NormalizeTag(input);
    if t != "" {
      RemovedTagsAppend(tags, [t], t);
      RemoveAbsent(tags, t);
      assert RemovedTags([t], t) == [];
    } else {
      RemoveAbsent(tags, t);
    }
  }

  // ---------------------------------------------------------------------
  // word count

  /** `s.split(/\s+/)`: the pieces between the runs of white space; a run at
      the start or the end leaves an empty piece there. */
  function SplitOnWhitespace(s: string): (parts: seq<string>)
    ensures |parts| >= 1
    decreases |s|
  {
    if s == [] then [""]
    else if IsWhitespace(s[0]) then
      TrimStartSuffix(s[1..]);
      [""] + SplitOnWhitespace(TrimStart(s[1..]))
    else
      var rest := SplitOnWhitespace(s[1..]);
      [[s[0]] + rest[0]] + rest[1..]
  }

  /** The number of words, that is of maximal runs of characters that are
      not white space, that start in s; `inWord` says whether the character
      before s belongs to a word. */
  function Words(s: string, inWord: bool): nat {
    if s == [] then 0
    else if IsWhitespace(s[0]) then Words(s[1..], false)
    else (if inWord then 0 else 1) + Words(s[1..], true)
  }

  /** `wordCount`: 0 for text that trims to "", else the number of pieces
      of the trimmed text split on white space; 0 exactly for blank text. */
  function WordCount(text: string): (n: nat)
    ensures n == 0 <==> AllWhitespace(text)
  {
    TrimEmpty(text);
    var t := Trim(text);
    if t == "" then 0 else |SplitOnWhitespace(t)|
  }

  lemma {:induction false} WordsBlank(w: string, inWord: bool)
    requires AllWhitespace(w)
    ensures Words(w, inWord) == 0
  {
    if w != [] {
      WordsBlank(w[1..], false);
    }
  }

  /** Leading white space holds no word. */
  lemma {:induction false} WordsTrimStart(s: string)
    ensures Words(TrimStart(s), false) == Words(s, false)
  {
    if s != [] && IsWhitespace(s[0]) {
      WordsTrimStart(s[1..]);
    }
  }

  /** Trailing white space holds no word. */
  lemma {:induction false} WordsTrailing(a: string, w: string, inWord: bool)
    requires AllWhitespace(w)
    ensures Words(a + w, inWord) == Words(a, inWord)
  {
    if a == [] {
      assert a + w == w;
      WordsBlank(w, inWord);
    } else {
      assert (a + w)[0] == a[0];
      assert (a + w)[1..] == a[1..] + w;
      WordsTrailing(a[1..], w, !IsWhitespace(a[0]));
    }
  }

  /** Splitting a string that does not end in white space gives one piece
      more than the words that start after its first character's word. */
  lemma {:induction false} SplitPieces(s: string)
    requires s == [] || !IsWhitespace(s[|s| - 1])
    ensures |SplitOnWhitespace(s)| == Words(s, true) + 1
    decreases |s|
  {
    if s != [] {
      if IsWhitespace(s[0]) {
        var t := TrimStart(s[1..]);
        TrimStartSuffix(s[1..]);
        assert t != [];
        assert t[|t| - 1] == s[|s| - 1];
        SplitPieces(t);
        WordsTrimStart(s[1..]);
      } else {
        SplitPieces(s[1..]);
      }
    }
  }

  /** The word count is the number of words of the text. */
  lemma WordCountIsWords(text: string)
    ensures WordCount(text) == Words(text, false)
  {
    var u := TrimStart(text);
    var t := TrimEnd(u);
    TrimEmpty(text);
    if t == [] {
      WordsBlank(text, false);
    } else {
      SplitPieces(t);
      TrimEndPrefix(u);
      assert u == t + u[|t|..];
      WordsTrailing(t, u[|t|..], false);
      WordsTrimStart(text);
    }
  }

  /** Two examples: a run of white space separates once, and the ends do
      not count. */
  lemma WordCountExamples()
    ensures WordCount(" a \n b ") == 2
    ensures WordCount(" \t") == 0
  {
    var s := " a \n b ";
    WordCountIsWords(s);
    assert IsWhitespace(s[0]) && !IsWhitespace(s[1]) && IsWhitespace(s[2]) && IsWhitespace(s[3]);
    assert IsWhitespace(s[4]) && !IsWhitespace(s[5]) && IsWhitespace(s[6]);
    assert Words(s[6..], true) == 0;
    assert Words(s[5..], false) == 1;
    assert Words(s[1..], false) == 2;
    assert IsWhitespace(" \t"[0]) && IsWhitespace(" \t"[1]);
  }

  // ---------------------------------------------------------------------
  // the editor

  class EntryEditor {
    var text: string
    var tags: seq<string>
    /** The tag input field. */
    var newTag: string
    /** The entries reported through `onSave`, oldest first. */
    var saved: seq<JournalEntry>

    /** The editor opened on `entry`, with an empty tag field. */
    constructor(entry: JournalEntry)
      ensures text == entry.text && tags == entry.tags && newTag == "" && saved == []
    {
      text := entry.text;
      tags := entry.tags;
      newTag := "";
      saved := [];
    }

    /** The effect run when another entry is passed in: its text and tags
        are shown; the tag field is kept. */
    method ShowEntry(entry: JournalEntry)
      modifies this
      ensures text == entry.text && tags == entry.tags
      ensures newTag == old(newTag) && saved == old(saved)
    {
      text := entry.text;
      tags := entry.tags;
    }

    /** Typing in the tag field. */
    method SetNewTag(input: string)
      modifies this
      ensures newTag == input
      ensures text == old(text) && tags == old(tags) && saved == old(saved)
    {
      newTag := input;
    }

    /** `handleTextChange`: the new text is shown and reported with the
        current tags. */
    method HandleTextChange(newText: string)
      modifies this
      ensures text == newText && tags == old(tags) && newTag == old(newTag)
      ensures saved == old(saved) + [JournalEntry(newText, old(tags))]
    {
      text := newText;
      saved := saved + [JournalEntry(newText, tags)];
    }

    /** `handleAddTag`: a new, non-empty normalised tag is appended, the
        field cleared and the entry reported; otherwise nothing changes. */
    method HandleAddTag()
      modifies this
      ensures text == old(text)
      ensures var t := NormalizeTag(old(newTag));
        if t != "" && t !in old(tags) then
          && tags == old(tags) + [t] && newTag == ""
          && saved == old(saved) + [JournalEntry(old(text), tags)]
        else
          tags == old(tags) && newTag == old(newTag) && saved == old(saved)
      ensures tags == AddedTags(old(tags), old(newTag))
      ensures NoDuplicates(old(tags)) ==> NoDuplicates(tags)
    {
      var trimmedTag := ToLower(Trim(newTag));
      if trimmedTag != "" && trimmedTag !in tags {
        var newTags := tags + [trimmedTag];
        tags := newTags;
        newTag := "";
        saved := saved + [JournalEntry(text, newTags)];
      }
    }

    /** `handleRemoveTag`: every occurrence of the tag is dropped, the rest
        kept in order, and the entry reported. */
    method HandleRemoveTag(tagToRemove: string)
      modifies this
      ensures tags == RemovedTags(old(tags), tagToRemove)
      ensures NoDuplicates(old(tags)) ==> NoDuplicates(tags)
      ensures text == old(text) && newTag == old(newTag)
      ensures saved == old(saved) + [JournalEntry(old(text), tags)]
    {
      var newTags := RemovedTags(tags, tagToRemove);
      if NoDuplicates(tags) {
        RemoveKeepsNoDuplicates(tags, tagToRemove);
      }
      tags := newTags;
      saved := saved + [JournalEntry(text, newTags)];
    }

    /** The word count shown under the text. */
    function CurrentWordCount(): (n: nat)
      reads this
      ensures n == Words(text, false)
    {
      WordCountIsWords(text);
      WordCount(text)
    }
  }
}
