/** A stand-in for the js-yaml `dump` / `load` pair the journal store uses.

    `Yaml` is the value a YAML document loads to. `Dump` writes the records
    the journal writes (an optional string `text`, an optional list of
    string `tags`) in a line format:

        text: <text, with backslash and newline escaped>
        tags:
        - <tag>
        - <tag>

    and `Load` reads that format back; any other non-empty document is
    rejected, which is how the model exercises the program's handling of
    a `load` that throws. The round trip `Load(Dump(r)) == Ok(YMap(r))` is
    proved below (`LoadDump`). */
module Yaml {
  import opened Wrappers
  import opened Strings

  datatype Yaml =
    | YNull                         // null / undefined (an empty document)
    | YBool(b: bool)
    | YNum(n: int)
    | YStr(s: string)
    | YSeq(items: seq<Yaml>)
    | YMap(fields: map<string, Yaml>)

  /** The object a YAML mapping loads to, by key. */
  type Record = map<string, Yaml>

  predicate AllStrings(items: seq<Yaml>) {
    forall i :: 0 <= i < |items| ==> items[i].YStr?
  }

  /** The shape of the records the journal writes. */
  predicate IsEntryRecord(rec: Record) {
    && (forall k :: k in rec ==> k == "text" || k == "tags")
    && ("text" in rec ==> rec["text"].YStr?)
    && ("tags" in rec ==> rec["tags"].YSeq? && AllStrings(rec["tags"].items))
  }

  /** Backslash and newline escaped, so that a value fits on one line. */
  function Escape(s: string): (r: string)
    ensures '\n' !in r
  {
    if s == [] then []
    else
      (if s[0] == '\\' then "\\\\" else if s[0] == '\n' then "\\n" else [s[0]])
      + Escape(s[1..])
  }

  function ItemLines(items: seq<Yaml>): (r: string)
    requires AllStrings(items)
    ensures r == [] <==> items == []
    ensures r != [] ==> r[|r| - 1] == '\n'
  {
    if items == [] then [] else "- " + Escape(items[0].s) + "\n" + ItemLines(items[1..])
  }

  /** `yaml.dump` of a journal record: never empty (so it never loads as
      null), and ending with a newline. */
  function Dump(rec: Record): (r: string)
    requires IsEntryRecord(rec)
    ensures r != [] && r[|r| - 1] == '\n'
  {
    if rec == map[] then "{}\n"
    else
      (if "text" in rec then "text: " + Escape(rec["text"].s) + "\n" else [])
      + (if "tags" in rec then "tags:\n" + ItemLines(rec["tags"].items) else [])
  }

  /** Reads one escaped value up to its newline; the rest of the input follows. */
  function ReadLine(s: string): (r: Option<(string, string)>)
    ensures r.Some? ==> |r.value.1| < |s|
  {
    if s == [] then None
    else if s[0] == '\n' then Some(([], s[1..]))
    else if s[0] == '\\' then
      if |s| >= 2 && (s[1] == '\\' || s[1] == 'n') then
        match ReadLine(s[2..])
        case Some((t, rest)) => Some(([if s[1] == 'n' then '\n' else '\\'] + t, rest))
        case None => None
      else None
    else
      match ReadLine(s[1..])
      case Some((t, rest)) => Some(([s[0]] + t, rest))
      case None => None
  }

  function ParseItems(s: string): (r: Option<seq<Yaml>>)
    ensures r.Some? ==> AllStrings(r.value)
    decreases |s|
  {
    if s == [] then Some([])
    else if "- " <= s then
      match ReadLine(s[2..])
      case None => None
      case Some((t, rest)) =>
        match ParseItems(rest)
        case None => None
        case Some(items) => Some([YStr(t)] + items)
    else None
  }

  function ParseTags(s: string): (r: Option<Record>)
    ensures r.Some? ==> IsEntryRecord(r.value) && "text" !in r.value
  {
    if s == [] then Some(map[])
    else if "tags:\n" <= s then
      match ParseItems(s[6..])
      case None => None
      case Some(items) => Some(map["tags" := YSeq(items)])
    else None
  }

  function ParseFields(doc: string): (r: Option<Record>)
    ensures r.Some? ==> IsEntryRecord(r.value)
  {
    if "text: " <= doc then
      match ReadLine(doc[6..])
      case None => None
      case Some((t, rest)) =>
        match ParseTags(rest)
        case None => None
        case Some(tags) => Some(map["text" := YStr(t)] + tags)
    else ParseTags(doc)
  }

  /** `yaml.load`: an empty document loads to null, an Err stands for a
      throw; anything else that loads is a mapping of the journal's shape. */
  function Load(doc: string): (r: Result<Yaml, string>)
    ensures r == Ok(YNull) <==> doc == []
    ensures r.Ok? && doc != [] ==> r.value.YMap? && IsEntryRecord(r.value.fields)
  {
    if doc == [] then Ok(YNull)
    else if doc == "{}\n" then Ok(YMap(map[]))
    else
      match ParseFields(doc)
      case Some(rec) => Ok(YMap(rec))
      case None => Err("malformed YAML document")
  }

  lemma {:induction false} ReadLineEscape(t: string, rest: string)
    ensures ReadLine(Escape(t) + "\n" + rest) == Some((t, rest))
  {
    var s := Escape(t) + "\n" + rest;
    if t == [] {
      assert s == "\n" + rest;
    } else {
      ReadLineEscape(t[1..], rest);
      var tail := Escape(t[1..]) + "\n" + rest;
      var head := if t[0] == '\\' then "\\\\" else if t[0] == '\n' then "\\n" else [t[0]];
      assert s == head + tail;
      if |head| == 2 {
        assert s[0] == '\\' && s[1] == head[1];
        assert s[2..] == tail;
      } else {
        assert s[0] == t[0];
        assert s[1..] == tail;
      }
      assert [t[0]] + t[1..] == t;
    }
  }

  lemma {:induction false} ParseItemLines(items: seq<Yaml>)
    requires AllStrings(items)
    ensures ParseItems(ItemLines(items)) == Some(items)
  {
    if items != [] {
      var s := ItemLines(items);
      var rest := ItemLines(items[1..]);
      assert s == "- " + (Escape(items[0].s) + "\n" + rest);
      assert s[2..] == Escape(items[0].s) + "\n" + rest;
      ReadLineEscape(items[0].s, rest);
      ParseItemLines(items[1..]);
      assert [YStr(items[0].s)] + items[1..] == items;
    }
  }

  lemma ParseTagsDump(rec: Record)
    requires IsEntryRecord(rec)
    ensures ParseTags(if "tags" in rec then "tags:\n" + ItemLines(rec["tags"].items) else [])
      == Some(if "tags" in rec then map["tags" := rec["tags"]] else map[])
  {
    if "tags" in rec {
      var items := rec["tags"].items;
      var s := "tags:\n" + ItemLines(items);
      assert s[6..] == ItemLines(items);
      ParseItemLines(items);
    }
  }

  /** Loading what Dump wrote gives back the same record. */
  lemma LoadDump(rec: Record)
    requires IsEntryRecord(rec)
    ensures Load(Dump(rec)) == Ok(YMap(rec))
  {
    if rec != map[] {
      var doc := Dump(rec);
      assert doc != "{}\n" && doc != [] by {
        if "text" in rec {
          assert doc[0] == 't' && doc[1] == 'e';
        } else {
          assert "tags" in rec;
          assert doc[0] == 't' && doc[1] == 'a';
        }
      }
      ParseFieldsDump(rec);
    }
  }

  lemma ParseFieldsDump(rec: Record)
    requires IsEntryRecord(rec) && rec != map[]
    ensures ParseFields(Dump(rec)) == Some(rec)
  {
    ParseTagsDump(rec);
    if "text" in rec {
      ParseFieldsDumpText(rec);
    } else {
      var doc := Dump(rec);
      var tagsPart := "tags:\n" + ItemLines(rec["tags"].items);
      assert doc == tagsPart;
      assert doc[1] == 'a';
      assert !("text: " <= doc);
      assert ParseFields(doc) == ParseTags(tagsPart);
      assert ParseTags(tagsPart) == Some(map["tags" := rec["tags"]]);
      assert rec.Keys == {"tags"};
      assert rec == map["tags" := rec["tags"]];
    }
  }

  lemma ParseFieldsDumpText(rec: Record)
    requires IsEntryRecord(rec) && "text" in rec
    ensures ParseFields(Dump(rec)) == Some(rec)
  {
    var tagsPart := if "tags" in rec then "tags:\n" + ItemLines(rec["tags"].items) else [];
    var tags := if "tags" in rec then map["tags" := rec["tags"]] else map[];
    var t := rec["text"].s;
    ParseTagsDump(rec);
    assert Dump(rec) == "text: " + Escape(t) + "\n" + tagsPart;
    ParseTextLine(t, tagsPart, tags);
    var m := map["text" := YStr(t)] + tags;
    assert m.Keys == rec.Keys;
    assert m == rec;
  }

  lemma ParseTextLine(t: string, tagsPart: string, tags: Record)
    requires ParseTags(tagsPart) == Some(tags)
    ensures ParseFields("text: " + Escape(t) + "\n" + tagsPart) == Some(map["text" := YStr(t)] + tags)
  {
    var doc := "text: " + Escape(t) + "\n" + tagsPart;
    assert doc[..6] == "text: ";
    assert doc[6..] == Escape(t) + "\n" + tagsPart;
    ReadLineEscape(t, tagsPart);
  }
}
