/** The journal entry value: its text, its tags, the empty-entry rule and
    the conversion to and from the YAML record that is stored for a day. */
module JournalEntries {
  import opened Strings
  import opened Yaml

  datatype JournalEntry = JournalEntry(text: string, tags: seq<string>)

  /** `createEmptyEntry`: no text and no tags; such an entry is empty. */
  function CreateEmptyEntry(): (e: JournalEntry)
    ensures e.text == "" && e.tags == []
    ensures IsEntryEmpty(e)
  {
    JournalEntry("", [])
  }

  /** The string elements of a YAML list, in their original order. */
  function StringItems(items: seq<Yaml>): (r: seq<string>)
    ensures |r| <= |items|
    ensures forall s :: s in r <==> YStr(s) in items
  {
    if items == [] then []
    else if items[0].YStr? then [items[0].s] + StringItems(items[1..])
    else StringItems(items[1..])
  }

  /** The filter keeps exactly the strings, in order: it distributes over
      concatenation, keeps a string and drops anything else. */
  lemma {:induction false} StringItemsAppend(a: seq<Yaml>, b: seq<Yaml>)
    ensures StringItems(a + b) == StringItems(a) + StringItems(b)
  {
    if a == [] {
      assert a + b == b;
    } else {
      assert (a + b)[0] == a[0];
      assert (a + b)[1..] == a[1..] + b;
      StringItemsAppend(a[1..], b);
    }
  }

  lemma StringItemsSingle(y: Yaml)
    ensures StringItems([y]) == if y.YStr? then [y.s] else []
  {
  }

  /** The YAML list of a tag list. */
  function TagItems(tags: seq<string>): (r: seq<Yaml>)
    ensures |r| == |tags| && AllStrings(r)
    ensures forall i :: 0 <= i < |tags| ==> r[i] == YStr(tags[i])
  {
    seq(|tags|, i requires 0 <= i < |tags| => YStr(tags[i]))
  }

  lemma {:induction false} StringItemsOfTags(tags: seq<string>)
    ensures StringItems(TagItems(tags)) == tags
  {
    if tags != [] {
      assert TagItems(tags)[1..] == TagItems(tags[1..]);
      StringItemsOfTags(tags[1..]);
      assert [tags[0]] + tags[1..] == tags;
    }
  }

  /** `parseYamlEntry`: the text only when the record's `text` is a string,
      the string elements of `tags` only when it is a list; otherwise the
      empty defaults. */
  function ParseYamlEntry(rec: Record): (e: JournalEntry)
    ensures "text" in rec && rec["text"].YStr? ==> e.text == rec["text"].s
    ensures !("text" in rec && rec["text"].YStr?) ==> e.text == ""
    ensures !("tags" in rec && rec["tags"].YSeq?) ==> e.tags == []
    ensures forall t :: t in e.tags <==>
      "tags" in rec && rec["tags"].YSeq? && YStr(t) in rec["tags"].items
  {
    var text := if "text" in rec && rec["text"].YStr? then rec["text"].s else "";
    var tags := if "tags" in rec && rec["tags"].YSeq? then StringItems(rec["tags"].items) else [];
    JournalEntry(text, tags)
  }

  /** `entryToYaml`: a `text` key exactly when the text is not "", a `tags`
      key exactly when there is a tag, and no other key. */
  function EntryToYaml(e: JournalEntry): (rec: Record)
    ensures "text" in rec <==> e.text != ""
    ensures "tags" in rec <==> e.tags != []
    ensures forall k :: k in rec ==> k == "text" || k == "tags"
    ensures "text" in rec ==> rec["text"] == YStr(e.text)
    ensures "tags" in rec ==> rec["tags"] == YSeq(TagItems(e.tags))
    ensures IsEntryRecord(rec)
  {
    var withText: Record := if e.text != "" then map["text" := YStr(e.text)] else map[];
    if e.tags != [] then withText["tags" := YSeq(TagItems(e.tags))] else withText
  }

  /** `isEntryEmpty`: the text is white space only and there are no tags
      (IsEntryEmptyTrim: the same as the text trimming to ""). */
  predicate IsEntryEmpty(e: JournalEntry): (b: bool)
    ensures e.text == "" && e.tags == [] ==> b
    ensures e.tags != [] ==> !b
    ensures (exists i :: 0 <= i < |e.text| && !IsWhitespace(e.text[i])) ==> !b
  {
    AllWhitespace(e.text) && e.tags == []
  }

  /** The empty-entry test as `isEntryEmpty` writes it: trimmed text "" and
      a zero-length tag list. */
  lemma IsEntryEmptyTrim(e: JournalEntry)
    ensures IsEntryEmpty(e) <==> Trim(e.text) == "" && |e.tags| == 0
  {
    TrimEmpty(e.text);
  }

  /** Decoding what the encoder wrote gives the same entry, tag order included. */
  lemma RoundTrip(e: JournalEntry)
    ensures ParseYamlEntry(EntryToYaml(e)) == e
  {
    if e.tags != [] {
      StringItemsOfTags(e.tags);
    }
  }

  /** Whitespace-only text with no tags is empty, yet the encoder keeps it. */
  lemma WhitespaceOnlyEntry()
    ensures IsEntryEmpty(JournalEntry(" \n", []))
    ensures "text" in EntryToYaml(JournalEntry(" \n", []))
  {
    assert IsWhitespace(" \n"[0]) && IsWhitespace(" \n"[1]);
  }
}
