/** The export builders over the exported journal files: a CSV table with
    one row per dated file, a YAML-style block document with one block per
    dated file, the dispatch on the chosen format, and the MIME type of each
    format. `toISOString` and `JSON.parse` are parameters. */
module ExportUtils {
  import opened Wrappers
  import opened Strings
  import opened DateUtils
  import opened JournalEntries
  import opened Yaml
  import opened LocalStorage

  datatype ExportFormat = Json | Csv | Yaml

  // ---------------------------------------------------------------------
  // the date of a file path

  type DateParts = (string, string, string)

  /** A date path (`dddd/dd/dd.txt`) starts at index `i`. */
  predicate MatchAt(path: string, i: int) {
    0 <= i && i + 14 <= |path| && DatePathWindow(path[i..i + 14]).Some?
  }

  /** `i` is the leftmost index where a date path starts. */
  predicate FirstMatchAt(path: string, i: int) {
    MatchAt(path, i) && forall j :: 0 <= j < i ==> !MatchAt(path, j)
  }

  /** `path.match(/(\d{4})\/(\d{2})\/(\d{2})\.txt/)`: the pattern is not
      anchored, so the match is the leftmost window that fits. */
  function DateMatch(path: string): (r: Option<DateParts>)
    ensures r.Some? ==> |r.value.0| == 4 && |r.value.1| == 2 && |r.value.2| == 2
    ensures r.Some? ==> AllDigits(r.value.0) && AllDigits(r.value.1) && AllDigits(r.value.2)
    decreases |path|
  {
    if |path| < 14 then None
    else
      match DatePathWindow(path[..14])
      case Some(parts) => Some(parts)
      case None => DateMatch(path[1..])
  }

  /** The match is found exactly when some window fits, and it is the
      leftmost such window. */
  lemma {:induction false} DateMatchLeftmost(path: string)
    ensures DateMatch(path).None? <==> forall i :: !MatchAt(path, i)
    ensures DateMatch(path).Some? ==>
      exists i :: FirstMatchAt(path, i) && DateMatch(path) == DatePathWindow(path[i..i + 14])
    decreases |path|
  {
    if |path| >= 14 {
      assert path[0..14] == path[..14];
      if DatePathWindow(path[..14]).Some? {
        assert FirstMatchAt(path, 0);
      } else {
        var rest := path[1..];
        DateMatchLeftmost(rest);
        forall j | 1 <= j
          ensures MatchAt(path, j) <==> MatchAt(rest, j - 1)
        {
          if j + 14 <= |path| {
            assert rest[j - 1..j + 13] == path[j..j + 14];
          }
        }
        if DateMatch(rest).Some? {
          var i :| FirstMatchAt(rest, i) && DateMatch(rest) == DatePathWindow(rest[i..i + 14]);
          assert rest[i..i + 14] == path[i + 1..i + 15];
          assert FirstMatchAt(path, i + 1);
        }
      }
    }
  }

  /** Every path the import accepts (a date path at its end) also has a
      date for the exports. */
  lemma ImportablePathMatches(path: string)
    requires PathMatch(path).Some?
    ensures DateMatch(path).Some?
  {
    var n := |path| - 14;
    assert path[n..n + 14] == path[n..];
    assert MatchAt(path, n);
    DateMatchLeftmost(path);
  }

  /** The date of a match, `new Date(parseInt(year), parseInt(month) - 1,
      parseInt(day))`: the numbers of a match are digits, and `parseInt` of
      digits is their decimal value (Strings.ParseIntDigits). */
  function MatchedDate(parts: DateParts): (r: Date)
    requires AllDigits(parts.0) && AllDigits(parts.1) && AllDigits(parts.2)
    ensures var y, m, d := DigitsValue(parts.0), DigitsValue(parts.1), DigitsValue(parts.2);
      y >= 100 && 1 <= m <= 12 && 1 <= d <= DaysIn(y, m - 1) ==> r == CalendarDate(y, m - 1, d)
  {
    MakeDate(DigitsValue(parts.0), DigitsValue(parts.1) - 1, DigitsValue(parts.2))
  }

  /** The exported file of a day with a four-digit year is dated that day. */
  lemma ExportedPathDate(d: Date)
    requires 1000 <= d.year < 10000
    ensures DateMatch(ExportPath(GetKey(Some(d)))).Some?
    ensures MatchedDate(DateMatch(ExportPath(GetKey(Some(d)))).value) == d
  {
    var p := FormatDatePath(Some(d));
    ExportedPathMatch(d);
    DatePartsOfDay(d);
  }

  lemma ExportedPathMatch(d: Date)
    requires 1000 <= d.year < 10000
    ensures var p := FormatDatePath(Some(d));
      |p.year| == 4 && DateMatch(ExportPath(GetKey(Some(d)))) == Some((p.year, p.month, p.day))
  {
    var p := FormatDatePath(Some(d));
    assert |p.year| == 4 by {
      assert p.year == NatToString(d.year);
      FourDigits(d.year);
    }
    ExportPathOf(p.year, p.month, p.day);
    DateMatchOfDatePath(p.year, p.month, p.day);
  }

  /** A path that is exactly a date path matches as a whole. */
  lemma DateMatchOfDatePath(ys: string, ms: string, ds: string)
    requires |ys| == 4 && |ms| == 2 && |ds| == 2 && AllDigits(ys) && AllDigits(ms) && AllDigits(ds)
    ensures DateMatch(ys + "/" + ms + "/" + ds + ".txt") == Some((ys, ms, ds))
  {
    var path := ys + "/" + ms + "/" + ds + ".txt";
    DatePathWindowOf(ys, ms, ds);
    assert path[..14] == path;
  }

  lemma DatePartsOfDay(d: Date)
    requires 1000 <= d.year < 10000
    ensures var p := FormatDatePath(Some(d));
      AllDigits(p.year) && MatchedDate((p.year, p.month, p.day)) == d
  {
    var p := FormatDatePath(Some(d));
    NumberOfDigits(p.year);
    assert DigitsValue(p.year) == d.year;
    MakeDateValid(d);
    assert MatchedDate((p.year, p.month, p.day)) == MakeDate(d.year, d.month, d.day);
  }

  // ---------------------------------------------------------------------
  // CSV

  const CsvHeader := "\"Date\",\"Text Preview\",\"Tags\""

  /** `.replace(/"/g, '""')`: every double quote doubled. */
  function EscapeQuotes(s: string): (r: string)
    ensures |r| == |s| + Count(s, '"')
  {
    if s == [] then []
    else (if s[0] == '"' then "\"\"" else [s[0]]) + EscapeQuotes(s[1..])
  }

  /** Reading a quoted CSV field back: a doubled quote stands for one. */
  function UnescapeQuotes(s: string): string
    decreases |s|
  {
    if |s| >= 2 && s[0] == '"' && s[1] == '"' then "\"" + UnescapeQuotes(s[2..])
    else if s == [] then []
    else [s[0]] + UnescapeQuotes(s[1..])
  }

  /** The escaped field reads back as the original text. */
  lemma {:induction false} UnescapeEscape(s: string)
    ensures UnescapeQuotes(EscapeQuotes(s)) == s
  {
    if s != [] {
      var e := EscapeQuotes(s);
      UnescapeEscape(s[1..]);
      if s[0] == '"' {
        assert e[2..] == EscapeQuotes(s[1..]);
      } else {
        assert e[1..] == EscapeQuotes(s[1..]);
      }
      assert [s[0]] + s[1..] == s;
    }
  }

  /** `.substring(0, 100)`. */
  function Preview(s: string): (r: string)
    ensures r <= s && |r| == if |s| <= 100 then |s| else 100
  {
    if |s| <= 100 then s else s[..100]
  }

  function Quoted(s: string): string {
    "\"" + s + "\""
  }

  /** A CSV line of three quoted fields. */
  function CsvLine(date: string, text: string, tags: string): string {
    Quoted(date) + "," + Quoted(text) + "," + Quoted(tags)
  }

  /** The row of one exported file: none when its path has no date;
      otherwise the ISO date, the first 100 characters of the parsed text
      (or of the raw content when parsing throws) with quotes doubled, and
      the parsed tags joined by ';' (or nothing). `parse` gives the text
      and tags of `JSON.parse(content)` with the `|| ""` and `|| []`
      defaults applied, or None when parsing or reading them throws. */
  function CsvRow(iso: Date -> string, parse: string -> Option<(string, seq<string>)>, f: ExportedFile): (row: Option<string>)
    ensures row.Some? <==> DateMatch(f.path).Some?
  {
    match DateMatch(f.path)
    case None => None
    case Some(parts) =>
      var date := iso(MatchedDate(parts));
      match parse(f.content)
      case Some((text, tags)) => Some(CsvLine(date, EscapeQuotes(Preview(text)), Join(tags, ";")))
      case None => Some(CsvLine(date, EscapeQuotes(Preview(f.content)), ""))
  }

  /** What a row's three fields hold: the date, a text field that reads
      back as at most the first 100 characters of the text (parsed, or raw
      on failure), and the joined tags, or nothing on failure. */
  lemma CsvRowFields(iso: Date -> string, parse: string -> Option<(string, seq<string>)>, f: ExportedFile)
    requires DateMatch(f.path).Some?
    ensures var text := if parse(f.content).Some? then parse(f.content).value.0 else f.content;
      exists field :: && CsvRow(iso, parse, f) == Some(CsvLine(iso(MatchedDate(DateMatch(f.path).value)), field,
                              if parse(f.content).Some? then Join(parse(f.content).value.1, ";") else ""))
                      && UnescapeQuotes(field) <= text
                      && |UnescapeQuotes(field)| == if |text| <= 100 then |text| else 100
  {
    var text := if parse(f.content).Some? then parse(f.content).value.0 else f.content;
    UnescapeEscape(Preview(text));
  }

  /** The rows of the files, in order, skipping files without a date. */
  function CsvRows(iso: Date -> string, parse: string -> Option<(string, seq<string>)>, files: seq<ExportedFile>): (rows: seq<string>)
    ensures |rows| <= |files|
  {
    if files == [] then []
    else
      var rest := CsvRows(iso, parse, files[..|files| - 1]);
      match CsvRow(iso, parse, files[|files| - 1])
      case Some(row) => rest + [row]
      case None => rest
  }

  /** One more file adds its row, if it has one. */
  lemma CsvRowsSnoc(iso: Date -> string, parse: string -> Option<(string, seq<string>)>, files: seq<ExportedFile>, i: int)
    requires 0 <= i < |files|
    ensures var row := CsvRow(iso, parse, files[i]);
      CsvRows(iso, parse, files[..i + 1]) == CsvRows(iso, parse, files[..i]) + if row.Some? then [row.value] else []
  {
    assert files[..i + 1][..i] == files[..i];
  }

  /** The files that have a date, in order. */
  function Dated(files: seq<ExportedFile>): (r: seq<ExportedFile>)
    ensures forall f :: f in r <==> f in files && DateMatch(f.path).Some?
  {
    if files == [] then []
    else
      var rest := Dated(files[..|files| - 1]);
      var f := files[|files| - 1];
      assert files == files[..|files| - 1] + [f];
      if DateMatch(f.path).Some? then rest + [f] else rest
  }

  /** Exactly one row per dated file, in the order of the files. */
  lemma {:induction false} CsvRowsOnePerDated(iso: Date -> string, parse: string -> Option<(string, seq<string>)>, files: seq<ExportedFile>)
    ensures |CsvRows(iso, parse, files)| == |Dated(files)|
    ensures forall i :: 0 <= i < |Dated(files)| ==> CsvRows(iso, parse, files)[i] == CsvRow(iso, parse, Dated(files)[i]).value
  {
    if files != [] {
      CsvRowsOnePerDated(iso, parse, files[..|files| - 1]);
    }
  }

  /** The rows of two lists of files are the rows of each, in turn. */
  lemma {:induction false} CsvRowsAppend(iso: Date -> string, parse: string -> Option<(string, seq<string>)>, a: seq<ExportedFile>, b: seq<ExportedFile>)
    ensures CsvRows(iso, parse, a + b) == CsvRows(iso, parse, a) + CsvRows(iso, parse, b)
    decreases |b|
  {
    if b == [] {
      assert a + b == a;
    } else {
      var init := b[..|b| - 1];
      assert (a + b)[..|a + b| - 1] == a + init;
      assert (a + b)[|a + b| - 1] == b[|b| - 1];
      CsvRowsAppend(iso, parse, a, init);
    }
  }

  /** Joining tags without ';' by ';' can be split back into the tags. */
  lemma {:induction false} TagsColumnSplits(tags: seq<string>)
    requires tags != [] && forall i :: 0 <= i < |tags| ==> ';' !in tags[i]
    ensures Split(Join(tags, ";"), ';') == tags
  {
    if |tags| == 1 {
      SplitNoSeparator(tags[0], ';');
    } else {
      TagsColumnSplits(tags[1..]);
      SplitConcat(tags[0], ';', Join(tags[1..], ";"));
      assert [tags[0]] + tags[1..] == tags;
    }
  }

  /** `exportAsCSV`: the header, then one row per dated file, joined by
      newlines. */
  method ExportAsCsv(iso: Date -> string, parse: string -> Option<(string, seq<string>)>, entries: seq<ExportedFile>)
    returns (content: string)
    ensures content == Join([CsvHeader] + CsvRows(iso, parse, entries), "\n")
  {
    var rows := [CsvHeader];
    for i := 0 to |entries|
      invariant rows == [CsvHeader] + CsvRows(iso, parse, entries[..i])
    {
      var entry := entries[i];
      CsvRowsSnoc(iso, parse, entries, i);
      var pathMatch := DateMatch(entry.path);
      if pathMatch.Some? {
        var date := MatchedDate(pathMatch.value);
        var parsed := parse(entry.content);
        var row;
        if parsed.Some? {
          var text := EscapeQuotes(Preview(parsed.value.0));
          var tags := Join(parsed.value.1, ";");
          row := CsvLine(iso(date), text, tags);
        } else {
          var text := EscapeQuotes(Preview(entry.content));
          row := CsvLine(iso(date), text, "");
        }
        assert CsvRow(iso, parse, entry) == Some(row);
        rows := rows + [row];
      }
    }
    assert entries[..|entries|] == entries;
    content := Join(rows, "\n");
  }

  /** `JSON.parse` throws on a text that starts with 't' but not with
      "tr": the only JSON text starting with 't' is `true`. */
  ghost predicate RejectsNonJson(parse: string -> Option<(string, seq<string>)>) {
    forall s :: |s| >= 2 && s[0] == 't' && s[1] != 'r' ==> parse(s).None?
  }

  /** Stored entries are YAML, which starts with "text:" or "tags:", so the
      CSV row of a stored entry with text or tags is the fallback one: the
      raw YAML as the preview and an empty tags column. */
  lemma StoredEntryRow(iso: Date -> string, parse: string -> Option<(string, seq<string>)>, d: Date, e: JournalEntry)
    requires RejectsNonJson(parse)
    requires 1000 <= d.year < 10000
    requires e.text != "" || e.tags != []
    ensures CsvRow(iso, parse, ExportedFile(ExportPath(GetKey(Some(d))), EncodeEntry(e)))
         == Some(CsvLine(iso(d), EscapeQuotes(Preview(EncodeEntry(e))), ""))
  {
    ExportedPathDate(d);
    EncodedStartsWithKey(e);
  }

  /** The YAML of an entry with text or tags starts with "te" or "ta". */
  lemma EncodedStartsWithKey(e: JournalEntry)
    requires e.text != "" || e.tags != []
    ensures |EncodeEntry(e)| >= 2 && EncodeEntry(e)[0] == 't' && EncodeEntry(e)[1] != 'r'
  {
    var doc := EncodeEntry(e);
    var rec := EntryToYaml(e);
    assert doc == Dump(rec);
    if e.text != "" {
      assert doc[0] == 't' && doc[1] == 'e';
    } else {
      assert doc[0] == 't' && doc[1] == 'a';
    }
  }

  /** Every dated file has its row among the rows. */
  lemma {:induction false} CsvRowsHaveRow(iso: Date -> string, parse: string -> Option<(string, seq<string>)>, files: seq<ExportedFile>, f: ExportedFile)
    requires f in files && DateMatch(f.path).Some?
    ensures CsvRow(iso, parse, f).value in CsvRows(iso, parse, files)
  {
    var init := files[..|files| - 1];
    if f != files[|files| - 1] {
      assert files == init + [files[|files| - 1]];
      CsvRowsHaveRow(iso, parse, init, f);
    }
  }

  /** Every stored, non-empty entry of a day with a four-digit year has a
      row in the CSV of the exported files, and that row starts with the
      day's ISO date. */
  lemma StoredDayHasRow(iso: Date -> string, parse: string -> Option<(string, seq<string>)>,
                        items: map<string, string>, keys: seq<string>, d: Date)
    requires forall i :: 0 <= i < |keys| ==> keys[i] in items && JournalPrefix <= keys[i]
    requires GetKey(Some(d)) in keys && items[GetKey(Some(d))] != ""
    requires 1000 <= d.year < 10000
    ensures exists row :: row in CsvRows(iso, parse, ExportedFiles(items, keys)) && Quoted(iso(d)) + "," <= row
  {
    var k := GetKey(Some(d));
    var f := ExportedFile(ExportPath(k), items[k]);
    var i :| 0 <= i < |keys| && keys[i] == k;
    assert f in ExportedFiles(items, keys);
    ExportedPathDate(d);
    CsvRowsHaveRow(iso, parse, ExportedFiles(items, keys), f);
    CsvRowStartsWithDate(iso, parse, f);
  }

  /** A row starts with its quoted ISO date and a comma. */
  lemma CsvRowStartsWithDate(iso: Date -> string, parse: string -> Option<(string, seq<string>)>, f: ExportedFile)
    requires DateMatch(f.path).Some?
    ensures Quoted(iso(MatchedDate(DateMatch(f.path).value))) + "," <= CsvRow(iso, parse, f).value
  {
    var date := iso(MatchedDate(DateMatch(f.path).value));
    if parse(f.content).Some? {
      CsvLineStartsWithDate(date, EscapeQuotes(Preview(parse(f.content).value.0)), Join(parse(f.content).value.1, ";"));
    } else {
      CsvLineStartsWithDate(date, EscapeQuotes(Preview(f.content)), "");
    }
  }

  lemma CsvLineStartsWithDate(date: string, text: string, tags: string)
    ensures Quoted(date) + "," <= CsvLine(date, text, tags)
  {
    assert CsvLine(date, text, tags) == (Quoted(date) + ",") + (Quoted(text) + "," + Quoted(tags));
  }

  // ---------------------------------------------------------------------
  // YAML-style blocks

  /** The first three lines: the title, the export time and a blank line. */
  function YamlPreamble(now: string): seq<string> {
    ["# RedNotebook Journal Export", "# Exported: " + now, ""]
  }

  /** A content line of a block: four spaces in front. */
  function Indent(line: string): string {
    "    " + line
  }

  /** Each line indented. */
  function Indented(lines: seq<string>): (r: seq<string>)
    ensures |r| == |lines|
    ensures forall i :: 0 <= i < |lines| ==> r[i] == Indent(lines[i])
  {
    seq(|lines|, i requires 0 <= i < |lines| => Indent(lines[i]))
  }

  lemma IndentedSnoc(lines: seq<string>, j: int)
    requires 0 <= j < |lines|
    ensures Indented(lines[..j + 1]) == Indented(lines[..j]) + [Indent(lines[j])]
  {
  }

  /** Each line without its first four characters. */
  function Dedented(lines: seq<string>): (r: seq<string>)
    ensures |r| == |lines|
  {
    seq(|lines|, i requires 0 <= i < |lines| => if |lines[i]| >= 4 then lines[i][4..] else lines[i])
  }

  /** Removing the indentation gives the lines back. */
  lemma DedentIndented(lines: seq<string>)
    ensures Dedented(Indented(lines)) == lines
  {
    var r := Dedented(Indented(lines));
    forall i | 0 <= i < |lines|
      ensures r[i] == lines[i]
    {
      assert Indented(lines)[i][4..] == lines[i];
    }
  }

  /** The first line of a block: the part of the ISO date before 'T'. */
  function DateLine(isoDate: string): string {
    "- date: " + Split(isoDate, 'T')[0]
  }

  const ContentLine := "  content: |"

  /** The lines of a block: the date line, the `content: |` line, every
      line of the content indented, and a blank line. */
  function BlockLines(isoDate: string, content: string): (b: seq<string>)
    ensures |b| == |Split(content, '\n')| + 3
  {
    [DateLine(isoDate), ContentLine] + Indented(Split(content, '\n')) + [""]
  }

  /** The block of one file: its lines when the path has a date. */
  function YamlBlock(iso: Date -> string, f: ExportedFile): (b: Option<seq<string>>)
    ensures b.Some? <==> DateMatch(f.path).Some?
  {
    match DateMatch(f.path)
    case None => None
    case Some(parts) => Some(BlockLines(iso(MatchedDate(parts)), f.content))
  }

  /** The content can be read back from its block: drop the two header
      lines and the blank line, remove the indentation, join by newlines. */
  lemma BlockKeepsContent(iso: Date -> string, f: ExportedFile)
    requires DateMatch(f.path).Some?
    ensures var b := YamlBlock(iso, f).value;
      Join(Dedented(b[2..|b| - 1]), "\n") == f.content
  {
    var b := YamlBlock(iso, f).value;
    var lines := Split(f.content, '\n');
    assert b == BlockLines(iso(MatchedDate(DateMatch(f.path).value)), f.content);
    assert b[2..|b| - 1] == Indented(lines);
    DedentIndented(lines);
    SplitJoin(f.content, '\n');
  }

  /** The lines of the blocks of the files, one after another; a file
      without a block adds nothing. */
  function Gather(block: ExportedFile -> Option<seq<string>>, files: seq<ExportedFile>): seq<string> {
    if files == [] then []
    else
      var rest := Gather(block, files[..|files| - 1]);
      match block(files[|files| - 1])
      case Some(b) => rest + b
      case None => rest
  }

  /** One more file adds its block, if it has one. */
  lemma GatherSnoc(block: ExportedFile -> Option<seq<string>>, files: seq<ExportedFile>, i: int)
    requires 0 <= i < |files|
    ensures Gather(block, files[..i + 1]) == Gather(block, files[..i]) + if block(files[i]).Some? then block(files[i]).value else []
  {
    assert files[..i + 1][..i] == files[..i];
  }

  /** The lines of two lists of files are the lines of each, in turn. */
  lemma {:induction false} GatherAppend(block: ExportedFile -> Option<seq<string>>, a: seq<ExportedFile>, b: seq<ExportedFile>)
    ensures Gather(block, a + b) == Gather(block, a) + Gather(block, b)
    decreases |b|
  {
    if b == [] {
      assert a + b == a;
    } else {
      var init := b[..|b| - 1];
      assert (a + b)[..|a + b| - 1] == a + init;
      assert (a + b)[|a + b| - 1] == b[|b| - 1];
      GatherAppend(block, a, init);
    }
  }

  /** The YAML block of each file. */
  function YamlBlockOf(iso: Date -> string): ExportedFile -> Option<seq<string>> {
    f => YamlBlock(iso, f)
  }

  /** The blocks of the dated files, one after another. */
  function YamlLines(iso: Date -> string, files: seq<ExportedFile>): seq<string> {
    Gather(YamlBlockOf(iso), files)
  }

  /** One more file adds its block, if it is dated. */
  lemma YamlLinesSnoc(iso: Date -> string, files: seq<ExportedFile>, i: int)
    requires 0 <= i < |files|
    ensures var b := YamlBlock(iso, files[i]);
      YamlLines(iso, files[..i + 1]) == YamlLines(iso, files[..i]) + if b.Some? then b.value else []
  {
    GatherSnoc(YamlBlockOf(iso), files, i);
  }

  /** Files without a date contribute no line; a dated file contributes
      exactly its block. */
  lemma YamlLinesOfOne(iso: Date -> string, f: ExportedFile)
    ensures YamlLines(iso, [f]) == if DateMatch(f.path).Some? then YamlBlock(iso, f).value else []
  {
    YamlLinesSnoc(iso, [f], 0);
    assert [f][..1] == [f] && [f][..0] == [];
  }

  /** The body of exportAsYAML's loop for a dated file: push the date
      line, the `content: |` line, every content line indented (the inner
      loop), and a blank line. */
  method PushBlock(lines: seq<string>, isoDate: string, content: string) returns (r: seq<string>)
    ensures r == lines + BlockLines(isoDate, content)
  {
    r := lines + [DateLine(isoDate)];
    r := r + [ContentLine];
    var contentLines := Split(content, '\n');
    for j := 0 to |contentLines|
      invariant r == lines + [DateLine(isoDate), ContentLine] + Indented(contentLines[..j])
    {
      IndentedSnoc(contentLines, j);
      r := r + [Indent(contentLines[j])];
    }
    assert contentLines[..|contentLines|] == contentLines;
    r := r + [""];
  }

  lemma AppendAssoc(a: seq<string>, b: seq<string>, c: seq<string>)
    ensures (a + b) + c == a + (b + c)
  {
  }

  /** `exportAsYAML`: the preamble, then the block of every dated file,
      joined by newlines. `now` is the ISO string of the current time. */
  method ExportAsYaml(iso: Date -> string, now: string, entries: seq<ExportedFile>)
    returns (content: string)
    ensures content == Join(YamlPreamble(now) + YamlLines(iso, entries), "\n")
  {
    var lines := ["# RedNotebook Journal Export"];
    lines := lines + ["# Exported: " + now];
    lines := lines + [""];
    for i := 0 to |entries|
      invariant lines == YamlPreamble(now) + YamlLines(iso, entries[..i])
    {
      var entry := entries[i];
      YamlLinesSnoc(iso, entries, i);
      var pathMatch := DateMatch(entry.path);
      if pathMatch.Some? {
        var date := MatchedDate(pathMatch.value);
        lines := PushBlock(lines, iso(date), entry.content);
        assert YamlBlock(iso, entry) == Some(BlockLines(iso(date), entry.content));
        AppendAssoc(YamlPreamble(now), YamlLines(iso, entries[..i]), BlockLines(iso(date), entry.content));
      }
    }
    assert entries[..|entries|] == entries;
    content := Join(lines, "\n");
  }

  // ---------------------------------------------------------------------
  // dispatch and MIME types

  /** `exportJournal`: the exported files of the store, written out in the
      chosen format. The JSON writer is a parameter. */
  method ExportJournal(store: JournalStore, format: ExportFormat, toJson: seq<ExportedFile> -> string,
                       iso: Date -> string, parse: string -> Option<(string, seq<string>)>, now: string)
    returns (content: string, ghost keys: seq<string>)
    ensures Enumerates(keys, JournalKeys(store.items))
    ensures forall i :: 0 <= i < |keys| ==> keys[i] in store.items && JournalPrefix <= keys[i]
    ensures var files := ExportedFiles(store.items, keys);
      content == match format
        case Json => toJson(files)
        case Csv => Join([CsvHeader] + CsvRows(iso, parse, files), "\n")
        case Yaml => Join(YamlPreamble(now) + YamlLines(iso, files), "\n")
  {
    var entries;
    entries, keys := store.ExportAllEntries();
    match format
    case Json =>
      content := toJson(entries);
    case Csv =>
      content := ExportAsCsv(iso, parse, entries);
    case Yaml =>
      content := ExportAsYaml(iso, now, entries);
  }

  /** The format's name as the export options spell it. */
  function FormatName(format: ExportFormat): string {
    match format
    case Json => "json"
    case Csv => "csv"
    case Yaml => "yaml"
  }

  /** `getMimeType`: each known format has its own type; any other name
      is plain text. */
  function GetMimeType(format: string): (m: string)
    ensures m == "application/json" <==> format == "json"
    ensures m == "text/csv" <==> format == "csv"
    ensures m == "text/yaml" <==> format == "yaml"
    ensures m == "text/plain" <==> format != "json" && format != "csv" && format != "yaml"
  {
    if format == "json" then "application/json"
    else if format == "csv" then "text/csv"
    else if format == "yaml" then "text/yaml"
    else "text/plain"
  }

  /** No export format is shared as plain text. */
  lemma FormatsHaveTypes(format: ExportFormat)
    ensures GetMimeType(FormatName(format)) != "text/plain"
  {
  }
}
