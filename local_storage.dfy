/** The local journal store: a key-value storage of strings in which the
    entry of a day lives under `journal:YYYY/MM/DD` as a YAML document, and
    a tag index lives under `allTags`.

    The first half holds the functions that describe the stored data; the
    class `JournalStore` holds the storage and the service's operations. */
module LocalStorage {
  import opened Wrappers
  import opened Strings
  import opened Yaml
  import opened JournalEntries
  import opened DateUtils

  const JournalPrefix: string := "journal:"
  const TagsKey: string := "allTags"

  // ---------------------------------------------------------------------
  // keys

  /** `getKey`: the storage key of the entry of a day. */
  function GetKey(d: Option<Date>): (k: string)
    ensures JournalPrefix <= k
  {
    var p := FormatDatePath(d);
    JournalPrefix + p.year + "/" + p.month + "/" + p.day
  }

  /** The `year-month-day` string that getAllEntryDates derives from a
      journal key: the prefix dropped, the rest split on '/', and a missing
      part written "undefined". */
  function EntryDateKey(k: string): (r: string)
    requires JournalPrefix <= k
    ensures '/' !in k[|JournalPrefix|..] ==> r == k[|JournalPrefix|..] + "-undefined-undefined"
  {
    if '/' !in k[|JournalPrefix|..] then
      SplitNoSeparator(k[|JournalPrefix|..], '/');
      k[|JournalPrefix|..] + "-undefined-undefined"
    else
    var parts := Split(k[|JournalPrefix|..], '/');
    var month := if |parts| > 1 then parts[1] else "undefined";
    var day := if |parts| > 2 then parts[2] else "undefined";
    parts[0] + "-" + month + "-" + day
  }

  /** `Number()` of the i-th part, NaN (None) when there is no such part. */
  function NumberAt(parts: seq<string>, i: nat): Option<int> {
    if i < |parts| then NumberOf(parts[i]) else None
  }

  /** The date the service rebuilds from a `year-month-day` string:
      `split("-").map(Number)`, then `new Date(year, month - 1, day)`.
      Unlike keyToDate there is no check on the number of parts. */
  function DateOfDateKey(dk: string): (r: Option<Date>)
    ensures |Split(dk, '-')| < 3 ==> r.None?
  {
    var parts := Split(dk, '-');
    var month := NumberAt(parts, 1);
    NewDate(NumberAt(parts, 0), if month.Some? then Some(month.value - 1) else None, NumberAt(parts, 2))
  }

  /** The date the service loads for a stored journal key. */
  function EntryDate(k: string): Option<Date>
    requires JournalPrefix <= k
  {
    DateOfDateKey(EntryDateKey(k))
  }

  lemma JournalKeyParts(ys: string, ms: string, ds: string)
    requires '/' !in ys && '/' !in ms && '/' !in ds
    ensures EntryDateKey(JournalPrefix + ys + "/" + ms + "/" + ds) == ys + "-" + ms + "-" + ds
  {
    var k := JournalPrefix + ys + "/" + ms + "/" + ds;
    assert k[|JournalPrefix|..] == ys + ['/'] + ms + ['/'] + ds;
    Split3(ys, ms, ds, '/');
  }

  lemma EntryDateOfParts(ys: string, ms: string, ds: string, d: Date)
    requires d.year >= 100
    requires AllDigits(ys) && NumberOf(ys) == Some(d.year)
    requires |ms| >= 1 && AllDigits(ms) && DigitsValue(ms) == d.month + 1
    requires |ds| >= 1 && AllDigits(ds) && DigitsValue(ds) == d.day
    ensures EntryDate(JournalPrefix + ys + "/" + ms + "/" + ds) == Some(d)
  {
    assert '/' !in ys && '/' !in ms && '/' !in ds && '-' !in ys && '-' !in ms && '-' !in ds by {
      assert !IsDigit('/') && !IsDigit('-');
    }
    JournalKeyParts(ys, ms, ds);
    Split3(ys, ms, ds, '-');
    ThreePartsAsKey(ys + "-" + ms + "-" + ds);
    KeyOfDigitParts(ys, ms, ds, d);
  }

  /** On three parts the service reads a date string as keyToDate does. */
  lemma ThreePartsAsKey(dk: string)
    requires |Split(dk, '-')| == 3
    ensures DateOfDateKey(dk) == KeyToDate(dk)
  {
  }

  /** The key of a day (from year 100 on) leads back to that day. */
  lemma EntryDateOfKey(d: Date)
    requires d.year >= 100
    ensures EntryDate(GetKey(Some(d))) == Some(d)
  {
    var p := FormatDatePath(Some(d));
    EntryDateOfParts(p.year, p.month, p.day, d);
  }

  /** Distinct days (from year 100 on) have distinct keys. */
  lemma GetKeyInjective(a: Date, b: Date)
    requires a.year >= 100 && b.year >= 100 && a != b
    ensures GetKey(Some(a)) != GetKey(Some(b))
  {
    EntryDateOfKey(a);
    EntryDateOfKey(b);
  }

  // ---------------------------------------------------------------------
  // stored entries

  /** The text stored for an entry: `yaml.dump(entryToYaml(entry))`. */
  function EncodeEntry(e: JournalEntry): string {
    Dump(EntryToYaml(e))
  }

  /** The entry a stored value decodes to: the empty entry when there is no
      value, the value is "", or decoding throws; a document that is not a
      mapping has no `text` or `tags` and also gives the empty entry. */
  function StoredEntry(items: map<string, string>, key: string): (e: JournalEntry)
    ensures key !in items ==> e == CreateEmptyEntry()
    ensures key in items && Load(items[key]).Err? ==> e == CreateEmptyEntry()
  {
    if key !in items || items[key] == "" then CreateEmptyEntry()
    else
      match Load(items[key])
      case Ok(YMap(rec)) => ParseYamlEntry(rec)
      case _ => CreateEmptyEntry()
  }

  /** `loadEntry` on given storage contents: the empty entry when nothing
      is stored under the day's key or what is stored does not load; the
      entry itself when its encoding is stored (LoadAfterSave). */
  function LoadEntryFrom(items: map<string, string>, d: Option<Date>): (e: JournalEntry)
    ensures GetKey(d) !in items ==> e == CreateEmptyEntry()
    ensures GetKey(d) in items && Load(items[GetKey(d)]).Err? ==> e == CreateEmptyEntry()
  {
    StoredEntry(items, GetKey(d))
  }

  /** Decoding an encoded entry gives the entry back. */
  lemma DecodeEncode(items: map<string, string>, key: string, e: JournalEntry)
    requires key in items && items[key] == EncodeEntry(e)
    ensures StoredEntry(items, key) == e
  {
    LoadDump(EntryToYaml(e));
    RoundTrip(e);
  }

  /** The storage after storing entry e under key: an empty entry removes
      the key, any other entry is stored encoded under it. */
  function SavedAt(items: map<string, string>, key: string, e: JournalEntry): (r: map<string, string>)
    ensures IsEntryEmpty(e) ==> key !in r
    ensures !IsEntryEmpty(e) ==> key in r && r[key] == EncodeEntry(e)
    ensures forall k :: k != key ==> (k in r <==> k in items)
    ensures forall k :: k != key && k in r ==> r[k] == items[k]
  {
    if IsEntryEmpty(e) then items - {key} else items[key := EncodeEntry(e)]
  }

  /** The storage after `saveEntry(d, e)`. */
  function SavedItems(items: map<string, string>, d: Option<Date>, e: JournalEntry): map<string, string> {
    SavedAt(items, GetKey(d), e)
  }

  /** Read after write: loading the key gives the saved entry back, or the
      empty entry when the saved one was empty. */
  lemma LoadAfterSave(items: map<string, string>, key: string, e: JournalEntry)
    ensures StoredEntry(SavedAt(items, key, e), key) == if IsEntryEmpty(e) then CreateEmptyEntry() else e
  {
    if !IsEntryEmpty(e) {
      DecodeEncode(SavedAt(items, key, e), key, e);
    }
  }

  /** Saving the same entry twice is saving it once. */
  lemma SaveIdempotent(items: map<string, string>, key: string, e: JournalEntry)
    ensures SavedAt(SavedAt(items, key, e), key, e) == SavedAt(items, key, e)
  {
    var once := SavedAt(items, key, e);
    var twice := SavedAt(once, key, e);
    assert twice.Keys == once.Keys;
    assert forall k :: k in twice ==> twice[k] == once[k];
  }

  // ---------------------------------------------------------------------
  // journal keys and the tag index

  /** The journal keys of the storage. */
  function JournalKeys(items: map<string, string>): (ks: set<string>)
    ensures forall k :: k in ks <==> k in items && JournalPrefix <= k
  {
    set k | k in items && JournalPrefix <= k
  }

  datatype DatedEntry = DatedEntry(date: Option<Date>, entry: JournalEntry)

  /** The step updateTagsIndex and getEntriesWithTag take for a date string:
      `split("-").map(Number)`, `new Date(y, m - 1, d)`, then `loadEntry`. */
  function LoadDateKey(items: map<string, string>, dk: string): DatedEntry {
    var date := DateOfDateKey(dk);
    DatedEntry(date, LoadEntryFrom(items, date))
  }

  /** The date and entry the service loads for a journal key, through the
      date string getAllEntryDates derives from it. */
  function LoadKey(items: map<string, string>, k: string): DatedEntry
    requires JournalPrefix <= k
  {
    LoadDateKey(items, EntryDateKey(k))
  }

  /** What `load` gives for each date string, in their order. */
  function LoadedBy(load: string -> DatedEntry, dates: seq<string>): (r: seq<DatedEntry>)
    ensures |r| == |dates|
    ensures forall i :: 0 <= i < |dates| ==> r[i] == load(dates[i])
  {
    seq(|dates|, i requires 0 <= i < |dates| => load(dates[i]))
  }

  /** Loading one more date string appends what `load` gives for it. */
  lemma LoadedBySnoc(load: string -> DatedEntry, dates: seq<string>, i: nat)
    requires i < |dates|
    ensures LoadedBy(load, dates[..i + 1]) == LoadedBy(load, dates[..i]) + [load(dates[i])]
  {
  }

  /** The service's loading step for the storage contents `items`. */
  function Loader(items: map<string, string>): string -> DatedEntry {
    dk => LoadDateKey(items, dk)
  }

  /** The date and entry loaded for each date string, in their order. */
  function LoadedOf(items: map<string, string>, dates: seq<string>): (r: seq<DatedEntry>)
    ensures |r| == |dates|
  {
    LoadedBy(Loader(items), dates)
  }

  lemma LoadedOfAt(items: map<string, string>, dates: seq<string>, i: nat)
    requires i < |dates|
    ensures LoadedOf(items, dates)[i] == LoadDateKey(items, dates[i])
  {
  }

  /** `dates` are the date strings of `keys`, which list every journal key once. */
  ghost predicate DatesOfKeys(items: map<string, string>, dates: seq<string>, keys: seq<string>) {
    && Enumerates(keys, JournalKeys(items))
    && |dates| == |keys|
    && forall i :: 0 <= i < |keys| ==> JournalPrefix <= keys[i] && dates[i] == EntryDateKey(keys[i])
  }

  /** Loading the date strings of the journal keys loads, for each key, what
      LoadKey gives for it. */
  lemma LoadedOfKeys(items: map<string, string>, dates: seq<string>, keys: seq<string>, i: nat)
    requires DatesOfKeys(items, dates, keys) && i < |keys|
    ensures LoadedOf(items, dates)[i] == LoadKey(items, keys[i])
  {
    LoadedOfAt(items, dates, i);
  }

  /** The tags of the entry loaded for each journal key. */
  function TagsByKey(items: map<string, string>): (m: map<string, seq<string>>)
    ensures m.Keys == JournalKeys(items)
  {
    map k | k in JournalKeys(items) :: KeyTags(items, k)
  }

  /** The tags of the entry loaded for journal key k. */
  function KeyTags(items: map<string, string>, k: string): seq<string>
    requires JournalPrefix <= k
  {
    LoadKey(items, k).entry.tags
  }

  /** Occurrences of tag t in the tag lists of the keys of S. */
  ghost function TallyOver(tagsOf: map<string, seq<string>>, S: set<string>, t: string): nat
    requires S <= tagsOf.Keys
    decreases S
  {
    if S == {} then 0
    else
      var k :| k in S;
      TallyOver(tagsOf, S - {k}, t) + Count(tagsOf[k], t)
  }

  /** The tally does not depend on the order of the keys: any key can be
      taken out first. */
  lemma {:induction false} TallyRemove(tagsOf: map<string, seq<string>>, S: set<string>, t: string, k: string)
    requires S <= tagsOf.Keys && k in S
    ensures TallyOver(tagsOf, S, t) == TallyOver(tagsOf, S - {k}, t) + Count(tagsOf[k], t)
    decreases S
  {
    var j :| j in S && TallyOver(tagsOf, S, t) == TallyOver(tagsOf, S - {j}, t) + Count(tagsOf[j], t);
    if j != k {
      TallyRemove(tagsOf, S - {j}, t, k);
      TallyRemove(tagsOf, S - {k}, t, j);
      assert S - {j} - {k} == S - {k} - {j};
    }
  }

  /** Occurrences of tag t in the tag lists of the loaded entries s. */
  function TallyOf(s: seq<DatedEntry>, t: string): nat {
    if s == [] then 0 else TallyOf(s[..|s| - 1], t) + Count(s[|s| - 1].entry.tags, t)
  }

  /** Summing along a list of distinct keys gives the tally of their set. */
  lemma {:induction false} TallyOfSet(s: seq<DatedEntry>, keys: seq<string>, tagsOf: map<string, seq<string>>, t: string)
    requires |s| == |keys| && NoDuplicates(keys)
    requires forall i :: 0 <= i < |keys| ==> keys[i] in tagsOf && s[i].entry.tags == tagsOf[keys[i]]
    ensures (set k | k in keys) <= tagsOf.Keys
    ensures TallyOf(s, t) == TallyOver(tagsOf, (set k | k in keys), t)
  {
    var S := set k | k in keys;
    if keys != [] {
      var n := |keys| - 1;
      var init := keys[..n];
      assert NoDuplicates(init);
      TallyOfSet(s[..n], init, tagsOf, t);
      var k := keys[n];
      assert k !in init;
      assert S - {k} == set x | x in init by {
        assert keys == init + [k];
      }
      TallyRemove(tagsOf, S, t, k);
    }
  }

  /** Occurrences of tag t over all entries of the journal. */
  ghost function Tally(items: map<string, string>, t: string): nat {
    TallyOver(TagsByKey(items), JournalKeys(items), t)
  }

  /** Counting along the date strings of the journal keys gives the tally. */
  lemma TallyOfKeys(items: map<string, string>, dates: seq<string>, keys: seq<string>, t: string)
    requires DatesOfKeys(items, dates, keys)
    ensures TallyOf(LoadedOf(items, dates), t) == Tally(items, t)
  {
    var tagsOf := TagsByKey(items);
    forall i | 0 <= i < |keys|
      ensures keys[i] in tagsOf && LoadedOf(items, dates)[i].entry.tags == tagsOf[keys[i]]
    {
      LoadedOfKeys(items, dates, keys, i);
    }
    TallyOfSet(LoadedOf(items, dates), keys, tagsOf, t);
    assert (set k | k in keys) == JournalKeys(items);
  }

  /** `allTags` maps each tag to its number of occurrences in the stored
      entries and holds no other tag. */
  ghost predicate IndexIsTally(index: map<string, nat>, items: map<string, string>) {
    forall t :: (t in index ==> index[t] == Tally(items, t) && index[t] > 0) && (t !in index ==> Tally(items, t) == 0)
  }

  /** When no tag list repeats a tag, the tally of t is the number of keys
      whose list holds t. */
  lemma {:induction false} TallyCountsEntries(tagsOf: map<string, seq<string>>, S: set<string>, t: string)
    requires S <= tagsOf.Keys
    requires forall k :: k in S ==> NoDuplicates(tagsOf[k])
    ensures TallyOver(tagsOf, S, t) == |set k | k in S && t in tagsOf[k]|
    decreases S
  {
    var carrying := set k | k in S && t in tagsOf[k];
    if S != {} {
      var k :| k in S;
      TallyRemove(tagsOf, S, t, k);
      TallyCountsEntries(tagsOf, S - {k}, t);
      var rest := set x | x in S - {k} && t in tagsOf[x];
      CountNoDuplicates(tagsOf[k], t);
      if t in tagsOf[k] {
        assert carrying == rest + {k};
      } else {
        assert carrying == rest;
      }
    } else {
      assert carrying == {};
    }
  }

  /** Every journal key is the key of the date the service derives from it,
      so that each stored entry is loaded under its own key. */
  ghost predicate Canonical(items: map<string, string>) {
    forall k :: k in items && JournalPrefix <= k ==> EntryDate(k).Some? && GetKey(EntryDate(k)) == k
  }

  lemma CanonicalEntryAt(items: map<string, string>, k: string)
    requires Canonical(items) && k in items && JournalPrefix <= k
    ensures LoadKey(items, k).entry == StoredEntry(items, k)
  {
  }

  /** Saving a day from year 100 on keeps the keys canonical. */
  lemma SaveKeepsCanonical(items: map<string, string>, d: Date, e: JournalEntry)
    requires Canonical(items) && d.year >= 100
    ensures Canonical(SavedItems(items, Some(d), e))
  {
    EntryDateOfKey(d);
  }

  /** Tag t is in the index exactly when some stored entry carries it. */
  lemma {:induction false} TallyPositive(tagsOf: map<string, seq<string>>, S: set<string>, t: string)
    requires S <= tagsOf.Keys
    ensures TallyOver(tagsOf, S, t) > 0 <==> exists k :: k in S && t in tagsOf[k]
    decreases S
  {
    if S != {} {
      var k :| k in S;
      TallyRemove(tagsOf, S, t, k);
      TallyPositive(tagsOf, S - {k}, t);
      CountZero(tagsOf[k], t);
    }
  }

  lemma IndexedTagsPresent(index: map<string, nat>, items: map<string, string>, t: string)
    requires IndexIsTally(index, items)
    ensures t in index <==> exists k :: k in JournalKeys(items) && t in LoadKey(items, k).entry.tags
  {
    TallyPresent(items, t);
  }

  /** A tag has a positive tally exactly when some journal entry carries it. */
  lemma TallyPresent(items: map<string, string>, t: string)
    ensures Tally(items, t) > 0 <==> exists k :: k in JournalKeys(items) && t in LoadKey(items, k).entry.tags
  {
    var tagsOf := TagsByKey(items);
    TallyPositive(tagsOf, JournalKeys(items), t);
    forall k | k in JournalKeys(items)
      ensures tagsOf[k] == LoadKey(items, k).entry.tags
    {
    }
  }

  // ---------------------------------------------------------------------
  // listings

  /** `keys` lists each element of S once, in some order. */
  ghost predicate Enumerates(keys: seq<string>, S: set<string>) {
    NoDuplicates(keys) && forall k :: k in keys <==> k in S
  }

  /** `allKeys.filter(key => key.startsWith(prefix))`. */
  function FilterPrefix(all: seq<string>, prefix: string): (r: seq<string>)
    ensures forall k :: k in r <==> k in all && prefix <= k
    ensures forall i :: 0 <= i < |r| ==> prefix <= r[i]
    ensures NoDuplicates(all) ==> NoDuplicates(r)
  {
    if all == [] then []
    else
      var rest := FilterPrefix(all[1..], prefix);
      assert NoDuplicates(all) ==> all[0] !in all[1..];
      if prefix <= all[0] then [all[0]] + rest else rest
  }

  /** Journal keys and month prefixes never name the tag index. */
  lemma NotTagsKey(k: string)
    requires JournalPrefix <= k
    ensures k != TagsKey && !(k <= TagsKey)
  {
    assert k[0] == 'j';
  }

  /** `"NaN" - 1` is NaN. */
  function Pred(n: Option<int>): Option<int> {
    if n.Some? then Some(n.value - 1) else None
  }

  /** The key prefix of a month (month 0-based): `journal:YYYY/MM/`. */
  function MonthPrefix(year: int, month: int): (prefix: string)
    ensures JournalPrefix <= prefix
  {
    JournalPrefix + IntToString(year) + "/" + PadStart2(IntToString(month + 1)) + "/"
  }

  /** The day getAllEntriesForMonth reads from a key of the month: the
      first occurrence of the prefix and then of ".txt" removed, the rest
      through parseInt. */
  function DayOfKey(prefix: string, k: string): (r: Option<int>)
    requires prefix != []
    ensures forall ds :: |ds| >= 1 && AllDigits(ds) && (k == prefix + ds || k == prefix + ds + ".txt") ==>
      r == Some(DigitsValue(ds))
  {
    DayOfKeyDigits(prefix, k);
    ParseIntPrefix(ReplaceFirst(ReplaceFirst(k, prefix, ""), ".txt", ""))
  }

  /** A key that is the prefix and then digits, with or without ".txt" after
      them, reads as those digits' value. */
  lemma DayOfKeyDigits(prefix: string, k: string)
    requires prefix != []
    ensures forall ds :: |ds| >= 1 && AllDigits(ds) && (k == prefix + ds || k == prefix + ds + ".txt") ==>
      ParseIntPrefix(ReplaceFirst(ReplaceFirst(k, prefix, ""), ".txt", "")) == Some(DigitsValue(ds))
  {
    forall ds | |ds| >= 1 && AllDigits(ds) && (k == prefix + ds || k == prefix + ds + ".txt")
      ensures ParseIntPrefix(ReplaceFirst(ReplaceFirst(k, prefix, ""), ".txt", "")) == Some(DigitsValue(ds))
    {
      DayOfKeyOf(prefix, ds, k);
    }
  }

  lemma DayOfKeyOf(prefix: string, ds: string, k: string)
    requires prefix != [] && |ds| >= 1 && AllDigits(ds)
    requires k == prefix + ds || k == prefix + ds + ".txt"
    ensures ParseIntPrefix(ReplaceFirst(ReplaceFirst(k, prefix, ""), ".txt", "")) == Some(DigitsValue(ds))
  {
    assert prefix <= k;
    var rest := ReplaceFirst(k, prefix, "");
    assert rest == k[|prefix|..];
    DigitsWithoutTxt(ds);
    if k == prefix + ds {
      assert rest == ds;
    } else {
      assert rest == ds + ".txt";
    }
    ParseIntDigits(ds);
  }

  /** Removing the first ".txt" from digits, or from digits followed by
      ".txt", leaves the digits. */
  lemma DigitsWithoutTxt(ds: string)
    requires AllDigits(ds)
    ensures ReplaceFirst(ds, ".txt", "") == ds
    ensures ReplaceFirst(ds + ".txt", ".txt", "") == ds
  {
    var t := ds + ".txt";
    forall j | 0 <= j < |ds|
      ensures !OccursAt(ds, ".txt", j) && !OccursAt(t, ".txt", j)
    {
      assert IsDigit(ds[j]) && t[j] == ds[j];
      if j + 4 <= |ds| {
        assert ds[j..j + 4][0] == ds[j];
      }
      if j + 4 <= |t| {
        assert t[j..j + 4][0] == t[j];
      }
    }
    assert !Contains(ds, ".txt");
    assert t[|ds|..|ds| + 4] == ".txt";
    assert FirstOccurrence(t, ".txt", |ds|);
    assert t[..|ds|] == ds && t[|ds| + 4..] == [];
  }

  /** The keys of the storage that start with `prefix`. */
  ghost function KeysUnder(items: map<string, string>, prefix: string): set<string> {
    set k | k in items && prefix <= k
  }

  /** Some key of the storage under `prefix` names `day`. */
  ghost predicate PrefixHasDay(items: map<string, string>, prefix: string, day: int)
    requires prefix != []
  {
    exists k :: k in items && prefix <= k && DayOfKey(prefix, k) == Some(day)
  }

  /** Some key of the storage lists `day` under the month's prefix. */
  ghost predicate MonthHasDay(items: map<string, string>, year: int, month: int, day: int) {
    PrefixHasDay(items, MonthPrefix(year, month), day)
  }

  /** The entry loaded for a listed day: that of `new Date(year, month, day)`. */
  function MonthEntry(items: map<string, string>, year: int, month: int, day: int): JournalEntry {
    LoadEntryFrom(items, Some(MakeDate(year, month, day)))
  }

  function MonthEntryOf(items: map<string, string>, year: int, month: int): int -> JournalEntry {
    day => MonthEntry(items, year, month, day)
  }

  /** The day each key of the month names, in the order of the keys. */
  function MonthDays(prefix: string, keys: seq<string>): (days: seq<Option<int>>)
    requires prefix != []
    ensures |days| == |keys|
    ensures forall i :: 0 <= i < |keys| ==> days[i] == DayOfKey(prefix, keys[i])
  {
    seq(|keys|, i requires 0 <= i < |keys| => DayOfKey(prefix, keys[i]))
  }

  /** The loop of getAllEntriesForMonth over the days its keys name, in that
      order: a day that parses adds its entry when that is not empty. */
  function DayListing(days: seq<Option<int>>, entryOf: int -> JournalEntry): map<int, JournalEntry> {
    if days == [] then map[]
    else
      var m := DayListing(days[..|days| - 1], entryOf);
      var day := days[|days| - 1];
      if day.Some? && !IsEntryEmpty(entryOf(day.value)) then m[day.value := entryOf(day.value)] else m
  }

  /** The listing of one more day. */
  lemma DayListingStep(days: seq<Option<int>>, i: nat, entryOf: int -> JournalEntry)
    requires i < |days|
    ensures DayListing(days[..i + 1], entryOf) ==
      var m := DayListing(days[..i], entryOf);
      if days[i].Some? && !IsEntryEmpty(entryOf(days[i].value)) then m[days[i].value := entryOf(days[i].value)] else m
  {
    assert days[..i + 1][..i] == days[..i];
  }

  /** The listing holds exactly the named days whose entry is not empty,
      each with its entry, whatever the order and repetitions of the days. */
  lemma {:induction false} DayListingDays(days: seq<Option<int>>, entryOf: int -> JournalEntry, day: int)
    ensures day in DayListing(days, entryOf) <==> Some(day) in days && !IsEntryEmpty(entryOf(day))
    ensures day in DayListing(days, entryOf) ==> DayListing(days, entryOf)[day] == entryOf(day)
  {
    if days != [] {
      var init := days[..|days| - 1];
      DayListingDays(init, entryOf, day);
      assert days == init + [days[|days| - 1]];
    }
  }

  /** Listing the days named by the keys under any prefix, in any order:
      exactly the named days whose entry is not empty, each with its entry. */
  lemma PrefixListing(items: map<string, string>, prefix: string, keys: seq<string>, entryOf: int -> JournalEntry, day: int)
    requires prefix != [] && Enumerates(keys, KeysUnder(items, prefix))
    ensures var listing := DayListing(MonthDays(prefix, keys), entryOf);
      (day in listing <==> PrefixHasDay(items, prefix, day) && !IsEntryEmpty(entryOf(day)))
      && (day in listing ==> listing[day] == entryOf(day))
  {
    var days := MonthDays(prefix, keys);
    DayListingDays(days, entryOf, day);
    if PrefixHasDay(items, prefix, day) {
      var k :| k in items && prefix <= k && DayOfKey(prefix, k) == Some(day);
      assert k in KeysUnder(items, prefix);
      var i :| 0 <= i < |keys| && keys[i] == k;
      assert days[i] == Some(day);
    }
    if Some(day) in days {
      var i :| 0 <= i < |days| && days[i] == Some(day);
      assert keys[i] in KeysUnder(items, prefix);
    }
  }

  /** A date whose loaded entry is not empty has its key in the storage. */
  lemma NonEmptyIsStored(items: map<string, string>, d: Option<Date>)
    ensures !IsEntryEmpty(LoadEntryFrom(items, d)) ==> GetKey(d) in items
  {
  }

  /** getAllEntriesForMonth over the keys of the month, in any order: the
      days named by a key of the month whose entry is not empty, each with
      the entry of `new Date(year, month, day)`, which is stored under the
      key of that date. */
  lemma MonthEntriesSpec(items: map<string, string>, year: int, month: int, keys: seq<string>, day: int)
    requires Enumerates(keys, KeysUnder(items, MonthPrefix(year, month)))
    ensures var listing := DayListing(MonthDays(MonthPrefix(year, month), keys), MonthEntryOf(items, year, month));
      (day in listing <==> MonthHasDay(items, year, month, day) && !IsEntryEmpty(MonthEntry(items, year, month, day)))
      && (day in listing ==> listing[day] == MonthEntry(items, year, month, day)
                             && GetKey(Some(MakeDate(year, month, day))) in items)
  {
    var entryOf := MonthEntryOf(items, year, month);
    PrefixListing(items, MonthPrefix(year, month), keys, entryOf, day);
    assert entryOf(day) == MonthEntry(items, year, month, day);
    NonEmptyIsStored(items, Some(MakeDate(year, month, day)));
  }

  /** The key of a day lies under the month's prefix, and its day reads back. */
  lemma MonthKeyParts(ys: string, ms: string, ds: string, day: int)
    requires |ds| == 2 && AllDigits(ds) && DigitsValue(ds) == day
    ensures var prefix := JournalPrefix + ys + "/" + ms + "/";
      prefix <= prefix + ds && DayOfKey(prefix, prefix + ds) == Some(day)
  {
    var prefix := JournalPrefix + ys + "/" + ms + "/";
    assert (prefix + ds)[|prefix|..] == ds;
    assert ReplaceFirst(prefix + ds, prefix, "") == ds;
    assert !Contains(ds, ".txt") by {
      assert forall i :: !OccursAt(ds, ".txt", i);
    }
    ParseIntDigits(ds);
  }

  /** A stored day (from year 100 on) is listed for its month, with its entry. */
  lemma MonthListsSavedDay(items: map<string, string>, d: Date)
    requires d.year >= 100 && GetKey(Some(d)) in items
    ensures MonthHasDay(items, d.year, d.month, d.day)
    ensures MonthEntry(items, d.year, d.month, d.day) == StoredEntry(items, GetKey(Some(d)))
  {
    var k := GetKey(Some(d));
    var p := FormatDatePath(Some(d));
    var prefix := MonthPrefix(d.year, d.month);
    assert prefix == JournalPrefix + p.year + "/" + p.month + "/" by {
      assert IntToString(d.month + 1) == NatToString(d.month + 1);
    }
    assert k == prefix + p.day;
    MonthKeyParts(p.year, p.month, p.day, d.day);
    MakeDateValid(d);
  }

  /** The loaded entries (in their order) whose tags include `tag`. */
  function WithTag(s: seq<DatedEntry>, tag: string): (r: seq<DatedEntry>)
    ensures forall x :: x in r <==> x in s && tag in x.entry.tags
  {
    if s == [] then []
    else
      var rest := WithTag(s[..|s| - 1], tag);
      assert s == s[..|s| - 1] + [s[|s| - 1]];
      if tag in s[|s| - 1].entry.tags then rest + [s[|s| - 1]] else rest
  }

  /** Filtering one more entry keeps it exactly when it carries the tag. */
  lemma WithTagSnoc(s: seq<DatedEntry>, x: DatedEntry, tag: string)
    ensures WithTag(s + [x], tag) == if tag in x.entry.tags then WithTag(s, tag) + [x] else WithTag(s, tag)
  {
    assert (s + [x])[..|s|] == s;
  }

  /** `b.getTime() - a.getTime() < 0`: a is a later day than b; false when
      either date is invalid (the difference is NaN). */
  predicate StrictlyNewer(a: DatedEntry, b: DatedEntry) {
    a.date.Some? && b.date.Some? && DayNumber(a.date.value) > DayNumber(b.date.value)
  }

  /** No dated entry comes after a dated entry of an earlier day. */
  predicate NewestFirst(s: seq<DatedEntry>) {
    forall i, j :: 0 <= i < j < |s| ==> !StrictlyNewer(s[j], s[i])
  }

  /** Places x before the first entry it is strictly newer than. */
  function InsertByDate(x: DatedEntry, s: seq<DatedEntry>): (r: seq<DatedEntry>)
    ensures multiset(r) == multiset(s) + multiset{x}
  {
    if s == [] then [x]
    else if StrictlyNewer(x, s[0]) then [x] + s
    else
      assert s == [s[0]] + s[1..];
      [s[0]] + InsertByDate(x, s[1..])
  }

  lemma {:induction false} InsertKeepsOrder(x: DatedEntry, s: seq<DatedEntry>)
    requires NewestFirst(s)
    ensures NewestFirst(InsertByDate(x, s))
  {
    var r := InsertByDate(x, s);
    if s != [] && !StrictlyNewer(x, s[0]) {
      var tail := InsertByDate(x, s[1..]);
      InsertKeepsOrder(x, s[1..]);
      forall j | 0 < j < |r|
        ensures !StrictlyNewer(r[j], r[0])
      {
        assert r[j] in multiset(tail);
        assert r[j] == x || r[j] in s[1..];
      }
    }
  }

  /** `results.sort((a, b) => b.date.getTime() - a.date.getTime())`, as a
      stable insertion of each entry in turn. */
  function SortNewestFirst(s: seq<DatedEntry>): (r: seq<DatedEntry>)
    ensures multiset(r) == multiset(s)
  {
    if s == [] then []
    else
      assert s == s[..|s| - 1] + [s[|s| - 1]];
      InsertByDate(s[|s| - 1], SortNewestFirst(s[..|s| - 1]))
  }

  /** The sort puts every dated entry before those of earlier days. */
  lemma {:induction false} SortIsNewestFirst(s: seq<DatedEntry>)
    ensures NewestFirst(SortNewestFirst(s))
  {
    if s != [] {
      SortIsNewestFirst(s[..|s| - 1]);
      InsertKeepsOrder(s[|s| - 1], SortNewestFirst(s[..|s| - 1]));
    }
  }

  /** getEntriesWithTag's result for loaded entries s: newest first, and
      exactly the entries of s that carry the tag. */
  lemma TaggedNewestFirst(s: seq<DatedEntry>, tag: string)
    ensures var r := SortNewestFirst(WithTag(s, tag));
      && NewestFirst(r)
      && (forall x :: x in r <==> x in s && tag in x.entry.tags)
  {
    var found := WithTag(s, tag);
    var r := SortNewestFirst(found);
    SortIsNewestFirst(found);
    forall x
      ensures x in r <==> x in found
    {
      assert x in r <==> x in multiset(r);
    }
  }

  /** For the date strings of the journal keys, every journal key's entry
      is among those loaded, and each loaded entry is some key's. */
  lemma LoadedCoversKeys(items: map<string, string>, dates: seq<string>, keys: seq<string>)
    requires DatesOfKeys(items, dates, keys)
    ensures forall k :: k in JournalKeys(items) ==> LoadKey(items, k) in LoadedOf(items, dates)
  {
    forall k | k in JournalKeys(items)
      ensures LoadKey(items, k) in LoadedOf(items, dates)
    {
      var j :| 0 <= j < |keys| && keys[j] == k;
      LoadedOfKeys(items, dates, keys, j);
    }
  }

  lemma LoadedFromKeys(items: map<string, string>, dates: seq<string>, keys: seq<string>)
    requires DatesOfKeys(items, dates, keys)
    ensures forall x :: x in LoadedOf(items, dates) ==> exists k :: k in JournalKeys(items) && x == LoadKey(items, k)
  {
    var loaded := LoadedOf(items, dates);
    forall x | x in loaded
      ensures exists k :: k in JournalKeys(items) && x == LoadKey(items, k)
    {
      var j :| 0 <= j < |loaded| && loaded[j] == x;
      LoadedOfKeys(items, dates, keys, j);
      assert keys[j] in JournalKeys(items);
    }
  }

  /** For the date strings of the journal keys: the tagged entries are
      those loaded for the keys whose entry carries the tag. */
  lemma TaggedOfKeys(items: map<string, string>, dates: seq<string>, keys: seq<string>, tag: string)
    requires DatesOfKeys(items, dates, keys)
    ensures forall k :: k in JournalKeys(items) && tag in LoadKey(items, k).entry.tags ==>
      LoadKey(items, k) in SortNewestFirst(WithTag(LoadedOf(items, dates), tag))
    ensures forall x :: x in SortNewestFirst(WithTag(LoadedOf(items, dates), tag)) ==>
      exists k :: k in JournalKeys(items) && x == LoadKey(items, k)
  {
    TaggedNewestFirst(LoadedOf(items, dates), tag);
    LoadedCoversKeys(items, dates, keys);
    LoadedFromKeys(items, dates, keys);
  }

  // ---------------------------------------------------------------------
  // export and import

  datatype ExportedFile = ExportedFile(path: string, content: string)

  /** The file path of a journal key: the key without its prefix, plus ".txt". */
  function ExportPath(k: string): string
    requires JournalPrefix <= k
  {
    k[|JournalPrefix|..] + ".txt"
  }

  /** The files exportAllEntries writes for `keys`: one per key with a
      non-empty value, in the order of the keys. */
  function ExportedFiles(items: map<string, string>, keys: seq<string>): (r: seq<ExportedFile>)
    requires forall i :: 0 <= i < |keys| ==> keys[i] in items && JournalPrefix <= keys[i]
    ensures |r| <= |keys|
    ensures forall f :: f in r ==> f.content != ""
    ensures forall i :: 0 <= i < |keys| && items[keys[i]] != "" ==>
      ExportedFile(ExportPath(keys[i]), items[keys[i]]) in r
    ensures forall f :: f in r ==>
      (exists i :: 0 <= i < |keys| && items[keys[i]] != "" && f == ExportedFile(ExportPath(keys[i]), items[keys[i]]))
  {
    if keys == [] then []
    else
      var k := keys[|keys| - 1];
      var rest := ExportedFiles(items, keys[..|keys| - 1]);
      if items[k] != "" then rest + [ExportedFile(ExportPath(k), items[k])] else rest
  }

  /** One step of the export loop: the next key adds its file when its
      value is non-empty. */
  lemma ExportedFilesSnoc(items: map<string, string>, keys: seq<string>, i: int)
    requires forall j :: 0 <= j < |keys| ==> keys[j] in items && JournalPrefix <= keys[j]
    requires 0 <= i < |keys|
    ensures ExportedFiles(items, keys[..i + 1]) ==
      ExportedFiles(items, keys[..i]) + (if items[keys[i]] != "" then [ExportedFile(ExportPath(keys[i]), items[keys[i]])] else [])
  {
    assert keys[..i + 1][..i] == keys[..i];
  }

  /** Exporting an enumeration of the journal keys gives one file for each
      journal key with a non-empty value, and no other file. */
  lemma ExportedJournalFiles(items: map<string, string>, keys: seq<string>)
    requires Enumerates(keys, JournalKeys(items))
    requires forall i :: 0 <= i < |keys| ==> keys[i] in items && JournalPrefix <= keys[i]
    ensures forall k :: k in JournalKeys(items) && items[k] != "" ==> ExportedFile(ExportPath(k), items[k]) in ExportedFiles(items, keys)
    ensures forall f :: f in ExportedFiles(items, keys) ==>
      (exists k :: k in JournalKeys(items) && items[k] != "" && f == ExportedFile(ExportPath(k), items[k]))
  {
    var files := ExportedFiles(items, keys);
    forall k | k in JournalKeys(items) && items[k] != ""
      ensures ExportedFile(ExportPath(k), items[k]) in files
    {
      var j :| 0 <= j < |keys| && keys[j] == k;
    }
    forall f | f in files
      ensures exists k :: k in JournalKeys(items) && items[k] != "" && f == ExportedFile(ExportPath(k), items[k])
    {
      var j :| 0 <= j < |keys| && items[keys[j]] != "" && f == ExportedFile(ExportPath(keys[j]), items[keys[j]]);
      assert keys[j] in JournalKeys(items);
    }
  }

  /** Whether a fourteen-character window is four digits, '/', two digits,
      '/', two digits and ".txt", and if so its three numbers. */
  function DatePathWindow(t: string): (r: Option<(string, string, string)>)
    requires |t| == 14
    ensures r.Some? ==> |r.value.0| == 4 && |r.value.1| == 2 && |r.value.2| == 2
    ensures r.Some? ==> AllDigits(r.value.0) && AllDigits(r.value.1) && AllDigits(r.value.2)
    ensures r.Some? ==> t == r.value.0 + "/" + r.value.1 + "/" + r.value.2 + ".txt"
  {
    if AllDigits(t[..4]) && t[4] == '/' && AllDigits(t[5..7]) && t[7] == '/' && AllDigits(t[8..10]) && t[10..] == ".txt"
    then
      assert t == t[..4] + "/" + t[5..7] + "/" + t[8..10] + ".txt";
      Some((t[..4], t[5..7], t[8..10]))
    else None
  }

  /** Every well-formed date path is a matching window. */
  lemma DatePathWindowOf(ys: string, ms: string, ds: string)
    requires |ys| == 4 && |ms| == 2 && |ds| == 2 && AllDigits(ys) && AllDigits(ms) && AllDigits(ds)
    ensures DatePathWindow(ys + "/" + ms + "/" + ds + ".txt") == Some((ys, ms, ds))
  {
    var t := ys + "/" + ms + "/" + ds + ".txt";
    assert t[..4] == ys && t[5..7] == ms && t[8..10] == ds && t[10..] == ".txt";
  }

  /** The match of `/(\d{4})\/(\d{2})\/(\d{2})\.txt$/`: the last fourteen
      characters are a matching window. */
  function PathMatch(path: string): (r: Option<(string, string, string)>)
    ensures r.Some? ==> |r.value.0| == 4 && |r.value.1| == 2 && |r.value.2| == 2
    ensures r.Some? ==> AllDigits(r.value.0) && AllDigits(r.value.1) && AllDigits(r.value.2)
    ensures r.Some? ==> |path| >= 14
    ensures r.Some? ==> path == path[..|path| - 14] + r.value.0 + "/" + r.value.1 + "/" + r.value.2 + ".txt"
  {
    if |path| < 14 then None
    else
      assert path == path[..|path| - 14] + path[|path| - 14..];
      DatePathWindow(path[|path| - 14..])
  }

  /** Every path ending in a well-formed date path matches, whatever precedes it. */
  lemma PathMatchOf(dir: string, ys: string, ms: string, ds: string)
    requires |ys| == 4 && |ms| == 2 && |ds| == 2 && AllDigits(ys) && AllDigits(ms) && AllDigits(ds)
    ensures PathMatch(dir + ys + "/" + ms + "/" + ds + ".txt") == Some((ys, ms, ds))
    ensures PathMatch(ys + "/" + ms + "/" + ds + ".txt") == Some((ys, ms, ds))
  {
    var path := dir + ys + "/" + ms + "/" + ds + ".txt";
    var t := path[|path| - 14..];
    assert t == ys + "/" + ms + "/" + ds + ".txt";
    DatePathWindowOf(ys, ms, ds);
    assert t[|t| - 14..] == t;
  }

  datatype ImportError =
    | InvalidPathFormat(path: string)   // the path does not end in YYYY/MM/DD.txt
    | YamlError(message: string)        // yaml.load threw
    | NotAnObject                       // the document is empty: reading its fields throws

  /** What importEntry saves: the date of the path and the entry of the
      document, or the error it throws. */
  function ImportParse(path: string, content: string): (r: Result<(Option<Date>, JournalEntry), ImportError>)
    ensures PathMatch(path).None? ==> r == Err(InvalidPathFormat(path))
    ensures PathMatch(path).Some? && Load(content).Err? ==> r == Err(YamlError(Load(content).error))
    ensures r.Ok? ==> r.value.0.Some?
  {
    match PathMatch(path)
    case None => Err(InvalidPathFormat(path))
    case Some((ys, ms, ds)) =>
      ParseIntDigits(ys);
      ParseIntDigits(ms);
      ParseIntDigits(ds);
      var date := NewDate(ParseIntPrefix(ys), Pred(ParseIntPrefix(ms)), ParseIntPrefix(ds));
      match Load(content)
      case Err(msg) => Err(YamlError(msg))
      case Ok(YNull) => Err(NotAnObject)
      case Ok(YMap(rec)) => Ok((date, ParseYamlEntry(rec)))
      case Ok(_) => Ok((date, CreateEmptyEntry()))
  }

  /** The numbers of a date path name its day. */
  lemma ImportPathOfParts(ys: string, ms: string, ds: string, d: Date)
    requires d.year >= 100
    requires |ys| == 4 && AllDigits(ys) && NumberOf(ys) == Some(d.year)
    requires |ms| == 2 && AllDigits(ms) && DigitsValue(ms) == d.month + 1
    requires |ds| == 2 && AllDigits(ds) && DigitsValue(ds) == d.day
    ensures NewDate(ParseIntPrefix(ys), Pred(ParseIntPrefix(ms)), ParseIntPrefix(ds)) == Some(d)
  {
    ParseIntDigits(ys);
    NumberOfDigits(ys);
    ParseIntDigits(ms);
    ParseIntDigits(ds);
    MakeDateValid(d);
  }

  lemma ExportPathOf(ys: string, ms: string, ds: string)
    ensures ExportPath(JournalPrefix + ys + "/" + ms + "/" + ds) == ys + "/" + ms + "/" + ds + ".txt"
  {
    var k := JournalPrefix + ys + "/" + ms + "/" + ds;
    assert k[|JournalPrefix|..] == ys + "/" + ms + "/" + ds;
  }

  lemma ImportParseOf(path: string, content: string, d: Date, e: JournalEntry)
    requires PathMatch(path).Some?
    requires var (ys, ms, ds) := PathMatch(path).value;
      NewDate(ParseIntPrefix(ys), Pred(ParseIntPrefix(ms)), ParseIntPrefix(ds)) == Some(d)
    requires Load(content) == Ok(YMap(EntryToYaml(e)))
    ensures ImportParse(path, content) == Ok((Some(d), e))
  {
    RoundTrip(e);
  }

  /** An exported file of a day with a four-digit year imports as that day
      and the entry that was encoded. */
  lemma ImportExported(d: Date, e: JournalEntry)
    requires 1000 <= d.year < 10000
    ensures ImportParse(ExportPath(GetKey(Some(d))), EncodeEntry(e)) == Ok((Some(d), e))
  {
    var p := FormatDatePath(Some(d));
    assert |p.year| == 4 by {
      assert p.year == NatToString(d.year);
      FourDigits(d.year);
    }
    ExportPathOf(p.year, p.month, p.day);
    PathMatchOf([], p.year, p.month, p.day);
    ImportPathOfParts(p.year, p.month, p.day, d);
    LoadDump(EntryToYaml(e));
    ImportParseOf(ExportPath(GetKey(Some(d))), EncodeEntry(e), d, e);
  }

  /** Importing the exported file of a stored, non-empty entry stores what
      is already there. */
  lemma ReimportKeepsItems(items: map<string, string>, d: Date, e: JournalEntry)
    requires GetKey(Some(d)) in items && items[GetKey(Some(d))] == EncodeEntry(e) && !IsEntryEmpty(e)
    ensures SavedItems(items, Some(d), e) == items
  {
    var k := GetKey(Some(d));
    assert items[k := EncodeEntry(e)] == items;
  }

  // ---------------------------------------------------------------------
  // the service

  /** `(tagCounts.get(tag) || 0)`. */
  function CountOf(counts: map<string, nat>, t: string): nat {
    if t in counts then counts[t] else 0
  }

  /** The inner loop of updateTagsIndex: one more occurrence for each
      element of `tags`. */
  method AddTags(counts: map<string, nat>, tags: seq<string>) returns (r: map<string, nat>)
    requires forall t :: t in counts ==> counts[t] > 0
    ensures forall t :: CountOf(r, t) == CountOf(counts, t) + Count(tags, t)
    ensures forall t :: t in r ==> r[t] > 0
  {
    r := counts;
    var j := 0;
    while j < |tags|
      invariant 0 <= j <= |tags|
      invariant forall t :: CountOf(r, t) == CountOf(counts, t) + Count(tags[..j], t)
      invariant forall t :: t in r ==> r[t] > 0
    {
      var tag := tags[j];
      r := r[tag := CountOf(r, tag) + 1];
      forall t
        ensures Count(tags[..j + 1], t) == Count(tags[..j], t) + if tag == t then 1 else 0
      {
        assert tags[..j + 1] == tags[..j] + [tag];
        CountAppend(tags[..j], tag, t);
      }
      j := j + 1;
    }
    assert tags[..|tags|] == tags;
  }

  /** The loop of getAllEntriesForMonth over the keys of the month: each
      key whose day parses adds the entry of that day, unless it is empty. */
  method ListDays(items: map<string, string>, prefix: string, keys: seq<string>, year: int, month: int)
    returns (entries: map<int, JournalEntry>)
    requires prefix != []
    ensures entries == DayListing(MonthDays(prefix, keys), MonthEntryOf(items, year, month))
  {
    ghost var days := MonthDays(prefix, keys);
    ghost var entryOf := MonthEntryOf(items, year, month);
    entries := map[];
    var i := 0;
    while i < |keys|
      invariant 0 <= i <= |keys|
      invariant entries == DayListing(days[..i], entryOf)
    {
      DayListingStep(days, i, entryOf);
      var day := DayOfKey(prefix, keys[i]);
      assert day == days[i];
      if day.Some? {
        var entry := MonthEntry(items, year, month, day.value);
        assert entry == entryOf(day.value);
        if !IsEntryEmpty(entry) {
          entries := entries[day.value := entry];
        }
      }
      i := i + 1;
    }
    assert days[..|days|] == days;
  }

  /** The loop of updateTagsIndex: for each date string, the entry of its
      date is loaded (`load`: `new Date` of its numbers, then loadEntry) and
      each of its tags counted once more. */
  method TallyTags(load: string -> DatedEntry, dates: seq<string>) returns (counts: map<string, nat>)
    ensures forall t :: CountOf(counts, t) == TallyOf(LoadedBy(load, dates), t)
    ensures forall t :: t in counts ==> counts[t] > 0
  {
    counts := map[];
    var i := 0;
    while i < |dates|
      invariant 0 <= i <= |dates|
      invariant forall t :: CountOf(counts, t) == TallyOf(LoadedBy(load, dates[..i]), t)
      invariant forall t :: t in counts ==> counts[t] > 0
    {
      var loaded := load(dates[i]);
      counts := AddTags(counts, loaded.entry.tags);
      LoadedBySnoc(load, dates, i);
      i := i + 1;
    }
    assert dates[..|dates|] == dates;
  }

  /** The loop of getEntriesWithTag: for each date string, the date and the
      entry loaded for it, kept when the entry's tags include `tag`. */
  method CollectTagged(load: string -> DatedEntry, dates: seq<string>, tag: string) returns (found: seq<DatedEntry>)
    ensures found == WithTag(LoadedBy(load, dates), tag)
  {
    found := [];
    var i := 0;
    while i < |dates|
      invariant 0 <= i <= |dates|
      invariant found == WithTag(LoadedBy(load, dates[..i]), tag)
    {
      var x := load(dates[i]);
      if tag in x.entry.tags {
        found := found + [x];
      }
      LoadedBySnoc(load, dates, i);
      WithTagSnoc(LoadedBy(load, dates[..i]), x, tag);
      i := i + 1;
    }
    assert dates[..|dates|] == dates;
  }

  /** The device storage as the journal service sees it: the string values
      by key, and the `allTags` index, held decoded (absent until the first
      save). */
  class JournalStore {
    var items: map<string, string>
    var tagIndex: Option<map<string, nat>>

    /** The tag index lives in `tagIndex` only, never among the strings. */
    ghost predicate Valid()
      reads this
    {
      TagsKey !in items
    }

    /** Every key of the storage. */
    ghost function AllKeys(): set<string>
      reads this
    {
      items.Keys + if tagIndex.Some? then {TagsKey} else {}
    }

    constructor(initial: map<string, string>, initialTags: Option<map<string, nat>>)
      requires TagsKey !in initial
      ensures Valid() && items == initial && tagIndex == initialTags
    {
      items := initial;
      tagIndex := initialTags;
    }

    /** `loadEntry`: the entry stored for the day, read and decoded; what a
        save of an entry stored under the day's key loads back as that entry. */
    method LoadEntry(date: Option<Date>) returns (entry: JournalEntry)
      ensures entry == LoadEntryFrom(items, date)
      ensures forall e :: GetKey(date) in items && items[GetKey(date)] == EncodeEntry(e) ==> entry == e
    {
      var key := GetKey(date);
      if key !in items || items[key] == "" {
        entry := CreateEmptyEntry();
      } else {
        var parsed := Load(items[key]);
        match parsed
        case Ok(YMap(rec)) =>
          entry := ParseYamlEntry(rec);
        case _ =>
          entry := CreateEmptyEntry();
      }
      forall e | key in items && items[key] == EncodeEntry(e)
        ensures entry == e
      {
        DecodeEncode(items, key, e);
      }
    }

    /** `AsyncStorage.getAllKeys()`: each key once, in no particular order. */
    method GetAllKeys() returns (keys: seq<string>)
      ensures Enumerates(keys, AllKeys())
    {
      var remaining := items.Keys + if tagIndex.Some? then {TagsKey} else {};
      keys := [];
      while remaining != {}
        invariant forall k :: k in keys || k in remaining <==> k in AllKeys()
        invariant forall k :: k in keys ==> k !in remaining
        invariant NoDuplicates(keys)
        decreases |remaining|
      {
        var k :| k in remaining;
        keys := keys + [k];
        remaining := remaining - {k};
      }
    }

    /** The journal keys among all keys, each once. */
    method JournalKeysInStore() returns (keys: seq<string>)
      ensures Enumerates(keys, JournalKeys(items))
      ensures forall i :: 0 <= i < |keys| ==> keys[i] in items && JournalPrefix <= keys[i]
    {
      var all := GetAllKeys();
      keys := FilterPrefix(all, JournalPrefix);
      forall k | k in keys
        ensures k in items
      {
        NotTagsKey(k);
      }
    }

    /** `getAllEntryDates`: the `year-month-day` string of every journal key. */
    method GetAllEntryDates() returns (dates: seq<string>, ghost keys: seq<string>)
      ensures DatesOfKeys(items, dates, keys)
    {
      var journal := JournalKeysInStore();
      dates := seq(|journal|, i requires 0 <= i < |journal| => EntryDateKey(journal[i]));
      keys := journal;
    }

    /** `saveEntry`: store (or, for an empty entry, remove) the day's entry,
        then rebuild the tag index from every stored entry. */
    method SaveEntry(d: Option<Date>, e: JournalEntry)
      requires Valid()
      modifies this
      ensures Valid()
      ensures items == SavedItems(old(items), d, e)
      ensures tagIndex.Some? && IndexIsTally(tagIndex.value, items)
    {
      NotTagsKey(GetKey(d));
      items := SavedItems(items, d, e);
      UpdateTagsIndex();
    }

    /** The tag counts of updateTagsIndex, over the stored dates. */
    method CountTags() returns (counts: map<string, nat>)
      ensures forall t :: CountOf(counts, t) == Tally(items, t)
      ensures forall t :: t in counts ==> counts[t] > 0
    {
      var dates, keys := GetAllEntryDates();
      counts := TallyTags(Loader(items), dates);
      forall t
        ensures CountOf(counts, t) == Tally(items, t)
      {
        TallyOfKeys(items, dates, keys, t);
      }
    }

    /** `updateTagsIndex`: the index becomes the tally of every tag. */
    method UpdateTagsIndex()
      requires Valid()
      modifies this
      ensures Valid() && items == old(items)
      ensures tagIndex.Some? && IndexIsTally(tagIndex.value, items)
    {
      var counts := CountTags();
      tagIndex := Some(counts);
    }

    /** `getAllTags`: the tag index, or no tags before the first save. */
    method GetAllTags() returns (tags: map<string, nat>)
      ensures tagIndex.Some? ==> tags == tagIndex.value
      ensures tagIndex.None? ==> tags == map[]
    {
      tags := if tagIndex.Some? then tagIndex.value else map[];
    }

    /** `getAllEntriesForMonth`: by day number, the non-empty entries of the
        days named by the keys under the month's prefix (see MonthEntriesSpec). */
    method GetAllEntriesForMonth(year: int, month: int) returns (entries: map<int, JournalEntry>, ghost keys: seq<string>)
      ensures Enumerates(keys, KeysUnder(items, MonthPrefix(year, month)))
      ensures entries == DayListing(MonthDays(MonthPrefix(year, month), keys), MonthEntryOf(items, year, month))
    {
      var prefix := MonthPrefix(year, month);
      NotTagsKey(prefix);
      entries, keys := EntriesUnder(prefix, year, month);
    }

    /** The keys under `prefix` and the listing of the days they name. */
    method EntriesUnder(prefix: string, year: int, month: int) returns (entries: map<int, JournalEntry>, ghost keys: seq<string>)
      requires prefix != [] && !(prefix <= TagsKey)
      ensures Enumerates(keys, KeysUnder(items, prefix))
      ensures entries == DayListing(MonthDays(prefix, keys), MonthEntryOf(items, year, month))
    {
      var all := GetAllKeys();
      var monthKeys := FilterPrefix(all, prefix);
      entries := ListDays(items, prefix, monthKeys, year, month);
      keys := monthKeys;
      assert Enumerates(keys, KeysUnder(items, prefix)) by {
        forall k
          ensures k in keys <==> k in KeysUnder(items, prefix)
        {
          if k == TagsKey && k in keys {
            assert false;
          }
        }
      }
    }

    /** `getEntriesWithTag`: the entries whose tags include `tag`, with the
        dates they were loaded for, newest first; each is the entry loaded
        for some journal key, and every journal key whose entry carries the
        tag contributes its entry. */
    method GetEntriesWithTag(tag: string) returns (results: seq<DatedEntry>, ghost dates: seq<string>, ghost keys: seq<string>)
      ensures DatesOfKeys(items, dates, keys)
      ensures results == SortNewestFirst(WithTag(LoadedOf(items, dates), tag))
      ensures NewestFirst(results)
      ensures forall x :: x in results ==> tag in x.entry.tags
      ensures forall x :: x in results ==> exists k :: k in JournalKeys(items) && x == LoadKey(items, k)
      ensures forall k :: k in JournalKeys(items) && tag in LoadKey(items, k).entry.tags ==> LoadKey(items, k) in results
    {
      var allDates;
      allDates, keys := GetAllEntryDates();
      var found := CollectTagged(Loader(items), allDates, tag);
      results := SortNewestFirst(found);
      dates := allDates;
      TaggedNewestFirst(LoadedOf(items, dates), tag);
      TaggedOfKeys(items, dates, keys, tag);
    }

    /** `exportAllEntries`: one file per journal key with a non-empty value. */
    method ExportAllEntries() returns (files: seq<ExportedFile>, ghost keys: seq<string>)
      ensures Enumerates(keys, JournalKeys(items))
      ensures forall i :: 0 <= i < |keys| ==> keys[i] in items && JournalPrefix <= keys[i]
      ensures files == ExportedFiles(items, keys)
      ensures forall f :: f in files ==> f.content != ""
      ensures forall k :: k in JournalKeys(items) && items[k] != "" ==> ExportedFile(ExportPath(k), items[k]) in files
      ensures forall f :: f in files ==> exists k :: k in JournalKeys(items) && items[k] != "" && f == ExportedFile(ExportPath(k), items[k])
    {
      var journal := JournalKeysInStore();
      files := [];
      var i := 0;
      while i < |journal|
        invariant 0 <= i <= |journal|
        invariant files == ExportedFiles(items, journal[..i])
      {
        var key := journal[i];
        var content := items[key];
        ExportedFilesSnoc(items, journal, i);
        if content != "" {
          files := files + [ExportedFile(ExportPath(key), content)];
        }
        i := i + 1;
      }
      assert journal[..|journal|] == journal;
      keys := journal;
      ExportedJournalFiles(items, keys);
    }

    /** `importEntry`: save the entry of a YAML document under the day its
        path names; a path without a date, a document that does not load and
        an empty document are errors that change nothing. */
    method ImportEntry(path: string, content: string) returns (r: Result<(), ImportError>)
      requires Valid()
      modifies this
      ensures Valid()
      ensures ImportParse(path, content).Err? ==>
        r == Err(ImportParse(path, content).error) && items == old(items) && tagIndex == old(tagIndex)
      ensures ImportParse(path, content).Ok? ==>
        (r.Ok? && items == SavedItems(old(items), ImportParse(path, content).value.0, ImportParse(path, content).value.1)
         && tagIndex.Some? && IndexIsTally(tagIndex.value, items))
    {
      match ImportParse(path, content)
      case Err(err) =>
        r := Err(err);
      case Ok((d, e)) =>
        SaveEntry(d, e);
        r := Ok(());
    }

    /** `clearAllData`: remove every journal key and the tag index; other
        keys stay. */
    method ClearAllData()
      requires Valid()
      modifies this
      ensures Valid()
      ensures forall k :: k in items <==> k in old(items) && !(JournalPrefix <= k)
      ensures forall k :: k in items ==> items[k] == old(items)[k]
      ensures tagIndex.None?
    {
      var all := GetAllKeys();
      var doomed := set k | k in all && (JournalPrefix <= k || k == TagsKey);
      items := items - doomed;
      tagIndex := None;
    }
  }
}
