# RedNotebook Mobile: a verified model of the journal core

This project models the core of RedNotebook Mobile, a journaling app written
in TypeScript with React Native, and proves properties of that model in
Dafny. It covers:

- **Entries** (`JournalEntries`): a journal entry is a text and a list of
  tags. This module defines the empty entry and the YAML record an entry is
  written as and read back from.
- **YAML** (`Yaml`): a concrete stand-in for the js-yaml `dump`/`load` pair
  the store uses. It is proved to round-trip the records the store writes.
- **Dates** (`DateUtils`): calendar dates with the JavaScript `Date`
  constructor's behaviour.
  - A month or day out of range carries over; years 0 to 99 mean 1900 to 1999.
  - "Invalid Date" is `None`.
  - Also modelled: the date path `YYYY/MM/DD`, the date key `YYYY-MM-DD` and
    its parser, and the month helpers (start, end, length, first weekday,
    `addMonths`).
- **Local storage** (`LocalStorage`): the key-value store as a class
  `JournalStore`, with every operation of the storage service.
  - Loading, saving and deleting entries.
  - Listing entry dates.
  - The tag-count index.
  - Listing a month's entries.
  - Entries with a tag, newest first.
  - Export and import of entry files, and clearing all data.
- **Search** (`Search`): the search state as a class `SearchProvider`, the
  full scan with text and tag filters, and tag toggling.
- **Entry editor** (`EntryEditing`): the editor state as a class
  `EntryEditor`, tag normalisation, adding and removing tags, and the word
  count.
- **Sync** (`Sync`): the sync status record and the class `SyncProvider`.
  - Connection check.
  - Sync with one provider, and with all signed-in providers. The latter
    models the `Promise.all` rejection rule.
  - Persisting the last sync time.
- **Month calendar** (`MonthCalendar`): the grid of day cells of the shown
  month, navigation between months, and the per-day flags.
- **Export** (`ExportUtils`): CSV and YAML export of the stored entry files,
  format dispatch, and MIME types.

Code that only computes a value is modelled as functions and lemmas. Code
that updates state step by step is modelled as classes and methods whose
loops are proved against those functions.

`Wrappers` (Option and Result) and `Strings` hold helpers that stand in for
JavaScript's string built-ins:

- `trim`, `toLowerCase`, `includes`, `split` and `join`;
- `replace` of the first match and `padStart`;
- `Number()`, `parseInt`, and number-to-string conversion.

The model follows the code, including where its behaviour may surprise:

- `keyToDate` does not reject out-of-range keys. `"2024-13-40"` gives
  9 February 2025, because the `Date` constructor normalises; see
  `DateUtils.MakeDateOverflow` and `DateUtils.KeyToDateNumbers`.
- An import path whose month is `13` is accepted the same way.
- The date-key round trip holds only for years from 100 on. For years 0 to 99
  the constructor maps the year to 1900 to 1999; see `DateUtils.KeyRoundTrip`.

## Model

| member | source | states |
|---|---|---|
| Strings.ToLower | context/SearchContext.tsx:49 | no 'A'-'Z' is left, every other character is kept, and each character is mapped on its own (ASCII only, see Left out) |
| Strings.ToLowerIdempotent | context/SearchContext.tsx:49 | lower-casing twice equals lower-casing once |
| Strings.Contains | context/SearchContext.tsx:49 | `includes` holds exactly when the substring occurs at some index |
| Strings.Trim | models/JournalEntry.ts:37 | the result is no longer than the input and, unless empty, starts and ends with non-whitespace |
| Strings.TrimEmpty | models/JournalEntry.ts:37 | a string trims to "" exactly when it is all whitespace |
| Strings.TrimStartSuffix | components/EntryEditor.tsx:57 | trimming the start removes exactly a whitespace prefix |
| Strings.TrimEndPrefix | components/EntryEditor.tsx:57 | trimming the end removes exactly a whitespace suffix |
| Strings.TrimUnchanged | components/EntryEditor.tsx:42 | a string without whitespace at either end trims to itself |
| Strings.ReplaceFirst | services/LocalStorageService.ts:68 | `replace` with a string pattern replaces the first occurrence, wherever it is, by the replacement; a string without the pattern is unchanged |
| Strings.Split | services/LocalStorageService.ts:69 | one more piece than separators, and no piece holds the separator |
| Strings.Join | utils/exportUtils.ts:69 | no parts give ""; otherwise the result starts with the first part, followed by the separator when there are two or more |
| Strings.JoinSplit | utils/exportUtils.ts:69 | splitting the join of separator-free parts gives the parts back |
| Strings.SplitJoin | utils/exportUtils.ts:95 | joining the pieces of `split(c)` with `c` gives the string back |
| Strings.SplitConcat | services/LocalStorageService.ts:69 | a piece without the separator splits off as the first element |
| Strings.Split3 | services/LocalStorageService.ts:69 | three separator-free pieces joined by the separator split back into those three |
| Strings.IntToString | utils/dateUtils.ts:6 | decimal rendering: digits, with a leading '-' for negatives |
| Strings.NatToStringValue | utils/dateUtils.ts:6 | the decimal digits of n read back as n |
| Strings.PadStart2 | utils/dateUtils.ts:7-8 | `padStart(2, "0")` keeps the string as its suffix and pads with zeros to length 2 |
| Strings.TwoDigits | utils/dateUtils.ts:7-8 | a month or day from 1 to 99 renders as exactly two digits with its own value |
| Strings.NumberOf | utils/dateUtils.ts:83 | `Number()`: blank input gives 0, and any other number read is a sign or digit followed by digits once trimmed |
| Strings.NumberOfIntToString | utils/dateUtils.ts:83 | `Number()` of a rendered integer is that integer |
| Strings.NumberOfDigits | utils/dateUtils.ts:83 | `Number()` of a digit string is its decimal value |
| Strings.NumberOfMinusDigits | utils/dateUtils.ts:83 | `Number()` of '-' then digits is the negated decimal value |
| Strings.LeadingDigits | services/LocalStorageService.ts:92 | the longest digit prefix `parseInt` reads: a prefix of the input, all digits, followed by a non-digit or the end |
| Strings.ParseIntPrefix | services/LocalStorageService.ts:92 | `parseInt` is NaN exactly when no digit follows the optional sign after leading whitespace; a leading digit gives a non-negative number |
| Strings.ParseIntDigits | services/LocalStorageService.ts:201 | `parseInt` of a digit string is its decimal value |
| Strings.CountNoDuplicates | components/EntryEditor.tsx:43 | in a list without duplicates each value occurs at most once |
| Yaml.Escape | services/LocalStorageService.ts:46-49 | an escaped text has no newline, so it fits on one line of the dump |
| Yaml.ReadLineEscape | services/LocalStorageService.ts:30 | reading an escaped line back gives the original text and the rest of the document |
| Yaml.ParseItemLines | services/LocalStorageService.ts:30 | the `- item` lines of a list of strings parse back to that list |
| Yaml.ParseTagsDump | services/LocalStorageService.ts:30 | the dumped `tags:` block parses back to the tags field, or to no field when there are no tags |
| Yaml.ParseTextLine | services/LocalStorageService.ts:30 | a `text:` line followed by a tags block parses to both fields |
| Yaml.ParseFieldsDump | services/LocalStorageService.ts:30 | the fields of a dumped non-empty record parse back to the record |
| Yaml.ParseFieldsDumpText | services/LocalStorageService.ts:30 | the same when the record has a text field |
| Yaml.Dump | services/LocalStorageService.ts:45-50 | a dump is a non-empty document ending in a newline |
| Yaml.Load | services/LocalStorageService.ts:30 | an empty document loads as null, and any other document that loads is a mapping of entry fields |
| Yaml.LoadDump | services/LocalStorageService.ts:45-50 | `load(dump(r))` gives back the mapping r for every record an entry is written as |
| JournalEntries.CreateEmptyEntry | models/JournalEntry.ts:6-11 | no text and no tags, and the result counts as empty |
| JournalEntries.StringItems | models/JournalEntry.ts:15-17 | the string-typed elements of a YAML list: a value is kept exactly when it is a string element |
| JournalEntries.StringItemsAppend | models/JournalEntry.ts:16 | filtering distributes over concatenation, so order is kept |
| JournalEntries.StringItemsSingle | models/JournalEntry.ts:16 | one element is kept exactly when it is a string |
| JournalEntries.TagItems | models/JournalEntry.ts:29-31 | tags become string elements, one per tag and in order |
| JournalEntries.StringItemsOfTags | models/JournalEntry.ts:15-31 | filtering the tag elements gives the tags back |
| JournalEntries.ParseYamlEntry | models/JournalEntry.ts:13-20 | text is the `text` field when it is a string, else ""; tags are exactly the string elements of `tags` when it is a list, else [] |
| JournalEntries.EntryToYaml | models/JournalEntry.ts:22-34 | `text` is present exactly when the text is non-empty, `tags` exactly when there are tags, and nothing else is present |
| JournalEntries.IsEntryEmpty | models/JournalEntry.ts:36-38 | the empty entry is empty; an entry with a tag or with a non-whitespace character is not |
| JournalEntries.IsEntryEmptyTrim | models/JournalEntry.ts:36-38 | empty exactly when the trimmed text is "" and there are no tags |
| JournalEntries.RoundTrip | models/JournalEntry.ts:13-34 | parsing the record of an entry gives the entry back |
| JournalEntries.WhitespaceOnlyEntry | models/JournalEntry.ts:22-38 | a whitespace-only text is empty, yet its record still carries the text |
| DateUtils.DaysIn | utils/dateUtils.ts:49-51 | a month has 28 to 31 days, 29 exactly for February of a leap year |
| DateUtils.DaysBeforeYearStep | services/LocalStorageService.ts:161 | the day count advances by 365 or 366 a year |
| DateUtils.DaysBeforeYearMonotone | services/LocalStorageService.ts:161 | the day count at the start of a later year is larger by at least 365 a year |
| DateUtils.MonthStartNext | services/LocalStorageService.ts:161 | a month's first day plus its length is the next month's first day |
| DateUtils.MonthStartSameYear | services/LocalStorageService.ts:161 | a later month of the same year starts after the end of an earlier one |
| DateUtils.DayNumberMonthOrder | services/LocalStorageService.ts:161 | a date in an earlier month has a smaller time value |
| DateUtils.DayNumberOrder | services/LocalStorageService.ts:161 | time values are equal exactly for equal dates, and ordered exactly as (year, month, day) |
| DateUtils.Normalize | utils/dateUtils.ts:85 | the constructor's overflow: a day in range gives that date, with the month carried into the year |
| DateUtils.CarryDayNumber | utils/dateUtils.ts:85 | carrying an overlong day into later months keeps the absolute day |
| DateUtils.BorrowDayNumber | utils/dateUtils.ts:85 | borrowing a day of 0 or less from earlier months keeps the absolute day |
| DateUtils.NormalizeDayNumber | utils/dateUtils.ts:85 | a normalised date is the day so many days after the start of the (carried) month |
| DateUtils.NormalizeValid | utils/dateUtils.ts:85 | a valid date normalises to itself |
| DateUtils.Weekday | utils/dateUtils.ts:53-55 | `getDay` is between 0 and 6 |
| DateUtils.WeekdayInMonth | utils/dateUtils.ts:53-55 | day 1+i of a month falls i weekdays after day 1 |
| DateUtils.WeekdayExamples | utils/dateUtils.ts:53-55 | 1 January 2000 was a Saturday, 15 October 2026 a Thursday |
| DateUtils.JsYear | utils/dateUtils.ts:85 | the constructor reads years 0 to 99 as 1900 to 1999 and leaves other years alone |
| DateUtils.NewDate | utils/dateUtils.ts:84-85 | an Invalid Date exactly when an argument is NaN, else the constructed date |
| DateUtils.FormatDatePath | utils/dateUtils.ts:1-10 | the year reads back as the year; month (1-based) and day are two digits with their values; "NaN" three times for an Invalid Date |
| DateUtils.DateToKey | utils/dateUtils.ts:75-78 | for an Invalid Date or a year from 0 on, splitting the key on '-' gives back exactly the three path parts |
| DateUtils.KeyParts | utils/dateUtils.ts:75-86 | path parts without '-' split back out of `year-month-day` |
| DateUtils.KeyToDate | utils/dateUtils.ts:80-86 | no date unless there are exactly three '-'-separated parts that all convert to numbers |
| DateUtils.KeyToDateParts | utils/dateUtils.ts:80-86 | a three-part key gives the constructor applied to the parts' numbers, the month less one |
| DateUtils.KeyToDateNumbers | utils/dateUtils.ts:80-86 | a key of three numbers gives `new Date(y, m - 1, d)` |
| DateUtils.KeyRoundTrip | utils/dateUtils.ts:75-86 | `keyToDate(dateToKey(d)) == d` for every date from year 100 on |
| DateUtils.KeyOfDigitParts | utils/dateUtils.ts:80-86 | a key whose digit parts have the values of a date parses to that date |
| DateUtils.MakeDateValid | utils/dateUtils.ts:85 | the constructor on the fields of a valid date from year 100 on gives that date |
| DateUtils.MakeDate | utils/dateUtils.ts:85 | month and day in range give that calendar date, with the year read as the constructor does |
| DateUtils.MakeDateOverflow | utils/dateUtils.ts:85 | month 12 rolls into January, day 40 of month 13 is 9 February, day 0 is the last of the previous month, year 50 is 1950 |
| DateUtils.IsSameDay | utils/dateUtils.ts:29-35 | true exactly when both dates are valid and equal |
| DateUtils.IsSameDayReflexiveSymmetric | utils/dateUtils.ts:29-35 | a valid date is the same day as itself, and the relation is symmetric |
| DateUtils.GetStartOfMonth | utils/dateUtils.ts:41-43 | day 1 of the date's month, with the year read as the constructor does |
| DateUtils.GetEndOfMonth | utils/dateUtils.ts:45-47 | the last day of the month, via day 0 of the next month |
| DateUtils.GetDaysInMonth | utils/dateUtils.ts:49-51 | the length of the month, 28 to 31 |
| DateUtils.GetFirstDayOfWeek | utils/dateUtils.ts:53-55 | the weekday of day 1 of the month |
| DateUtils.AddMonths | utils/dateUtils.ts:57-61 | `setMonth(m + k)`: same day in the target month when it exists, otherwise carried into the month after |
| DateUtils.CarryOnce | utils/dateUtils.ts:57-61 | a day up to 28 past the end of a month carries exactly one month |
| DateUtils.AddMonthsKeepsDay | utils/dateUtils.ts:57-61 | for days up to 28, adding months keeps the day and moves the month index by k |
| DateUtils.AddMonthsSkipsMonth | utils/dateUtils.ts:57-61 | 31 January 2025 plus one month is 3 March 2025 |
| DateUtils.AddMonthsClamped | utils/dateUtils.ts:57-61 | the month index moves by exactly k and the day is clamped to the target month's length |
| DateUtils.AddMonthsClampedEndOfMonth | utils/dateUtils.ts:57-61 | 31 January 2025 plus one is 28 February; 31 March 2024 minus one is 29 February |
| LocalStorage.GetKey | services/LocalStorageService.ts:16-19 | every entry key starts with the journal prefix |
| LocalStorage.EntryDateKey | services/LocalStorageService.ts:67-71 | a key with no '/' after the prefix gives its rest followed by "-undefined-undefined" |
| LocalStorage.DateOfDateKey | services/LocalStorageService.ts:128-130 | a date string with fewer than three '-'-separated parts gives an Invalid Date |
| LocalStorage.JournalKeyParts | services/LocalStorageService.ts:67-71 | the date string of a key `journal:y/m/d` is `y-m-d` |
| LocalStorage.EntryDateOfParts | services/LocalStorageService.ts:128-130 | the date read back from a key whose parts have a date's values is that date |
| LocalStorage.ThreePartsAsKey | services/LocalStorageService.ts:129-130 | the split-and-construct step agrees with `keyToDate` on three-part strings |
| LocalStorage.EntryDateOfKey | services/LocalStorageService.ts:125-131 | the date recovered from a day's key is the day, from year 100 on |
| LocalStorage.GetKeyInjective | services/LocalStorageService.ts:16-19 | different days have different keys, from year 100 on |
| LocalStorage.LoadEntryFrom | services/LocalStorageService.ts:21-36 | a missing key or a document that fails to load gives the empty entry |
| LocalStorage.StoredEntry | services/LocalStorageService.ts:21-36 | a missing key or an unreadable document loads as the empty entry |
| LocalStorage.DecodeEncode | services/LocalStorageService.ts:21-50 | loading what a save wrote gives the entry back |
| LocalStorage.SavedAt | services/LocalStorageService.ts:38-51 | an empty entry removes its key; any other entry stores its dump; no other key changes |
| LocalStorage.LoadAfterSave | services/LocalStorageService.ts:21-51 | load after save gives the entry, or the empty entry if it was empty |
| LocalStorage.SaveIdempotent | services/LocalStorageService.ts:38-51 | saving the same entry twice equals saving it once |
| LocalStorage.JournalKeys | services/LocalStorageService.ts:63-65 | exactly the stored keys with the journal prefix |
| LocalStorage.LoadedBy | services/LocalStorageService.ts:128-131 | one loaded entry per date string, in order |
| LocalStorage.LoadedBySnoc | services/LocalStorageService.ts:128-131 | loading one more date appends its entry |
| LocalStorage.LoadedOf | services/LocalStorageService.ts:125-131 | one loaded entry per date string |
| LocalStorage.LoadedOfAt | services/LocalStorageService.ts:128-131 | the i-th loaded entry is that of the i-th date string |
| LocalStorage.LoadedOfKeys | services/LocalStorageService.ts:60-76 | the i-th entry loaded from the listed dates is that of the i-th journal key |
| LocalStorage.TagsByKey | services/LocalStorageService.ts:128-135 | the tags recorded per key cover exactly the journal keys |
| LocalStorage.TallyRemove | services/LocalStorageService.ts:133-135 | the tally over a set of keys is one key's count plus the tally of the rest |
| LocalStorage.TallyOfSet | services/LocalStorageService.ts:128-135 | the running tally over a duplicate-free key list equals the tally over its key set |
| LocalStorage.TallyOfKeys | services/LocalStorageService.ts:123-139 | counting over the listed dates equals the tally over the store's journal keys, whatever the listing order |
| LocalStorage.TallyCountsEntries | services/LocalStorageService.ts:133-135 | with duplicate-free tags, a tag's tally is the number of entries carrying it |
| LocalStorage.CanonicalEntryAt | services/LocalStorageService.ts:128-131 | in a store written by saves, loading a key via its date string gives the stored entry |
| LocalStorage.SaveKeepsCanonical | services/LocalStorageService.ts:38-53 | saving keeps every stored key loadable via its date string |
| LocalStorage.TallyPositive | services/LocalStorageService.ts:133-135 | a tag's tally is positive exactly when some entry carries it |
| LocalStorage.TallyPresent | services/LocalStorageService.ts:128-135 | a tag's tally over the store is positive exactly when some journal entry carries it |
| LocalStorage.IndexedTagsPresent | services/LocalStorageService.ts:123-139 | a tag is in the index exactly when some stored entry carries it |
| LocalStorage.FilterPrefix | services/LocalStorageService.ts:63-65 | keeps exactly the keys with the prefix and keeps no-duplicates |
| LocalStorage.NotTagsKey | services/LocalStorageService.ts:12-13 | no journal key is, or is a prefix of, the tag-index key |
| LocalStorage.MonthPrefix | services/LocalStorageService.ts:83-84 | a month's key prefix starts with the journal prefix |
| LocalStorage.MonthDays | services/LocalStorageService.ts:90-92 | one day parse per listed key, in order |
| LocalStorage.DayListingStep | services/LocalStorageService.ts:90-101 | one loop step: a parsed day with a non-empty entry is set, others are skipped |
| LocalStorage.DayListingDays | services/LocalStorageService.ts:90-101 | a day is listed exactly when some key parses to it and its entry is non-empty, with that entry |
| LocalStorage.PrefixListing | services/LocalStorageService.ts:86-101 | the month map lists exactly the days of keys under the prefix whose entries are non-empty |
| LocalStorage.NonEmptyIsStored | services/LocalStorageService.ts:26-28 | a non-empty loaded entry has its key in the store |
| LocalStorage.MonthEntriesSpec | services/LocalStorageService.ts:78-107 | `getAllEntriesForMonth` lists exactly the stored days of the month with non-empty entries, each with its entry and its key stored |
| LocalStorage.DayOfKey | services/LocalStorageService.ts:91-92 | a key that is the month prefix and then digits, with or without ".txt", reads as those digits' value |
| LocalStorage.DayOfKeyDigits | services/LocalStorageService.ts:91-92 | the same, as a lemma over the key |
| LocalStorage.MonthKeyParts | services/LocalStorageService.ts:91-92 | the day part of a month key parses to the day |
| LocalStorage.MonthListsSavedDay | services/LocalStorageService.ts:78-107 | a stored day is among its month's days, with its stored entry |
| LocalStorage.WithTag | services/LocalStorageService.ts:156-158 | keeps exactly the entries carrying the tag |
| LocalStorage.WithTagSnoc | services/LocalStorageService.ts:151-158 | one loop step: the entry is pushed exactly when it carries the tag |
| LocalStorage.InsertByDate | services/LocalStorageService.ts:161 | insertion adds exactly the one element |
| LocalStorage.InsertKeepsOrder | services/LocalStorageService.ts:161 | insertion into a newest-first list keeps it newest first |
| LocalStorage.SortNewestFirst | services/LocalStorageService.ts:161 | the sort is a permutation |
| LocalStorage.SortIsNewestFirst | services/LocalStorageService.ts:161 | the sorted list is ordered by descending time value |
| LocalStorage.TaggedNewestFirst | services/LocalStorageService.ts:145-167 | the tag results are newest first and hold exactly the entries with the tag |
| LocalStorage.LoadedCoversKeys | services/LocalStorageService.ts:149-154 | every journal key's entry is among those loaded |
| LocalStorage.LoadedFromKeys | services/LocalStorageService.ts:149-154 | every loaded entry comes from a journal key |
| LocalStorage.TaggedOfKeys | services/LocalStorageService.ts:145-167 | every stored entry with the tag is in the results, and every result comes from a journal key |
| LocalStorage.ExportedFiles | services/LocalStorageService.ts:180-186 | one file per key with non-empty content, none empty, and every file is that of a listed key with non-empty content |
| LocalStorage.ExportedFilesSnoc | services/LocalStorageService.ts:180-186 | one loop step: the next key adds its file exactly when its value is non-empty |
| LocalStorage.ExportedJournalFiles | services/LocalStorageService.ts:169-192 | over an enumeration of the journal keys: a file for every journal key with non-empty content, and no other file |
| LocalStorage.DatePathWindow | services/LocalStorageService.ts:195 | a 14-character window matches `dddd/dd/dd.txt` with the three digit groups |
| LocalStorage.DatePathWindowOf | services/LocalStorageService.ts:195 | every digit path is matched, with its own groups |
| LocalStorage.PathMatch | services/LocalStorageService.ts:195-198 | the anchored match: the path ends in `dddd/dd/dd.txt`, and the groups are those digits |
| LocalStorage.PathMatchOf | services/LocalStorageService.ts:195 | any path ending in a digit date path matches, with those groups |
| LocalStorage.ImportPathOfParts | services/LocalStorageService.ts:200-201 | the groups' `parseInt` values rebuild the date they were written from |
| LocalStorage.ExportPathOf | services/LocalStorageService.ts:183 | an exported key's path is `y/m/d.txt` |
| LocalStorage.ImportParse | services/LocalStorageService.ts:194-206 | a path without a date fails with the invalid-path error, a document that does not load fails with its error, and a success carries a valid date |
| LocalStorage.ImportParseOf | services/LocalStorageService.ts:194-206 | a matching path and a readable document import as that date and entry |
| LocalStorage.ImportExported | services/LocalStorageService.ts:169-206 | importing an exported file gives back its date and entry (four-digit years) |
| LocalStorage.ReimportKeepsItems | services/LocalStorageService.ts:194-206 | re-importing an entry already stored leaves the store unchanged |
| LocalStorage.AddTags | services/LocalStorageService.ts:133-135 | the inner loop adds each tag's occurrences to its count, and counts stay positive |
| LocalStorage.ListDays | services/LocalStorageService.ts:90-101 | the month loop builds the day listing |
| LocalStorage.TallyTags | services/LocalStorageService.ts:128-136 | the outer loop's counts are the tally over the loaded entries |
| LocalStorage.CollectTagged | services/LocalStorageService.ts:151-159 | the loop pushes exactly the loaded entries with the tag, in order |
| LocalStorage.JournalStore.constructor | services/LocalStorageService.ts:12-13 | a store whose items hold no tag-index key |
| LocalStorage.JournalStore.GetAllKeys | services/LocalStorageService.ts:62 | an enumeration of all keys, each once, in unspecified order |
| LocalStorage.JournalStore.JournalKeysInStore | services/LocalStorageService.ts:62-65 | an enumeration of exactly the journal keys |
| LocalStorage.JournalStore.GetAllEntryDates | services/LocalStorageService.ts:60-76 | one date string per journal key |
| LocalStorage.JournalStore.SaveEntry | services/LocalStorageService.ts:38-58 | the store is as saved, and the tag index is the tally of the new store |
| LocalStorage.JournalStore.CountTags | services/LocalStorageService.ts:125-136 | each tag's count is its tally over the stored entries, and counts are positive |
| LocalStorage.JournalStore.UpdateTagsIndex | services/LocalStorageService.ts:123-143 | entries unchanged, and the index is the tally |
| LocalStorage.JournalStore.LoadEntry | services/LocalStorageService.ts:21-36 | the entry loaded from the current store; the stored entry itself when its encoding is stored |
| LocalStorage.JournalStore.GetAllTags | services/LocalStorageService.ts:109-121 | the stored index, or an empty map when there is none |
| LocalStorage.JournalStore.GetAllEntriesForMonth | services/LocalStorageService.ts:78-107 | the day listing of the keys under the month prefix |
| LocalStorage.JournalStore.EntriesUnder | services/LocalStorageService.ts:86-101 | the day listing of the keys under a prefix |
| LocalStorage.JournalStore.GetEntriesWithTag | services/LocalStorageService.ts:145-167 | newest first, and exactly the stored entries carrying the tag |
| LocalStorage.JournalStore.ExportAllEntries | services/LocalStorageService.ts:169-192 | one file per journal key with non-empty content, at the key's path, and no file for anything else |
| LocalStorage.JournalStore.ImportEntry | services/LocalStorageService.ts:194-211 | an invalid path or unreadable document fails and changes nothing; otherwise the entry is saved under the path's date and the index updated |
| LocalStorage.JournalStore.ClearAllData | services/LocalStorageService.ts:213-224 | exactly the journal keys and the tag index are removed; other keys keep their values |
| Search.MatchesText | context/SearchContext.tsx:47-49 | an empty query matches; otherwise a match exactly when the lower-cased query occurs in the lower-cased text |
| Search.MatchesTextIgnoresCase | context/SearchContext.tsx:47-49 | lower-casing the query does not change the match |
| Search.MatchesTags | context/SearchContext.tsx:50-52 | a match exactly when every filter tag is among the entry's tags, so no filter matches everything |
| Search.TagsToFilter | context/SearchContext.tsx:40 | the given tags when there are any, even an empty list; otherwise the selected tags |
| Search.MatchingMembers | context/SearchContext.tsx:42-57 | the results are exactly the loaded entries that match, a sub-multiset of them |
| Search.MatchingSnoc | context/SearchContext.tsx:54-56 | one loop step: the entry is pushed exactly when it matches |
| Search.MatchingUnfiltered | context/SearchContext.tsx:47-52 | an empty query and no tags keep every entry |
| Search.EmptyTagsMatchAll | context/SearchContext.tsx:40-52 | an explicit empty tag list filters nothing, whatever tags are selected |
| Search.SearchResults | context/SearchContext.tsx:35-60 | results are newest first, all match, all come from stored keys, and every matching stored entry is present; in a store written by saves no two results share a date |
| Search.ResultsDistinctDates | context/SearchContext.tsx:42-59 | in a store written by saves, the sorted matches have distinct dates |
| Search.LoadedDistinctDates | context/SearchContext.tsx:42-46 | in a store written by saves, the entries loaded per journal key have distinct dates |
| Search.SearchEntries | context/SearchContext.tsx:42-57 | the scan loop collects exactly the matching loaded entries in order |
| Search.RunSearch | context/SearchContext.tsx:38-59 | the scan over the store's dates, sorted newest first |
| Search.Toggled | context/SearchContext.tsx:76-86 | the tag flips membership and no other tag changes |
| Search.ToggleTwice | context/SearchContext.tsx:76-86 | toggling twice restores the selection |
| Search.SearchProvider.constructor | context/SearchContext.tsx:30-33 | empty query, no tags, no results, not searching |
| Search.SearchProvider.PerformSearch | context/SearchContext.tsx:35-66 | results are the sorted scan with the given tags or else the selected ones; not searching afterwards |
| Search.SearchProvider.HandleSetSearchQuery | context/SearchContext.tsx:68-74 | sets the query and searches with it and the selected tags |
| Search.SearchProvider.ToggleTag | context/SearchContext.tsx:76-86 | the selection toggles; nothing else changes |
| Search.SearchProvider.ClearTags | context/SearchContext.tsx:88-90 | the selection becomes empty; nothing else changes |
| EntryEditing.NormalizeTag | components/EntryEditor.tsx:42 | trimmed and lower-cased; empty exactly for whitespace-only input |
| EntryEditing.NormalTagFixed | components/EntryEditor.tsx:42 | a normal tag normalises to itself |
| EntryEditing.NormalizeIdempotent | components/EntryEditor.tsx:42 | normalising twice equals normalising once |
| EntryEditing.AddedTags | components/EntryEditor.tsx:41-49 | the old tags stay as a prefix and at most the normalised tag is added; no duplicates appear |
| EntryEditing.AddTwice | components/EntryEditor.tsx:41-49 | adding the same input twice adds it once |
| EntryEditing.RemovedTags | components/EntryEditor.tsx:51-55 | every occurrence of the tag is removed; other tags keep their counts |
| EntryEditing.RemovedTagsAppend | components/EntryEditor.tsx:52 | removal distributes over concatenation, so order is kept |
| EntryEditing.RemoveAbsent | components/EntryEditor.tsx:52 | removing an absent tag changes nothing |
| EntryEditing.RemoveKeepsNoDuplicates | components/EntryEditor.tsx:52 | removal keeps a duplicate-free list duplicate-free |
| EntryEditing.AddThenRemove | components/EntryEditor.tsx:41-55 | removing a freshly added tag restores the list |
| EntryEditing.SplitOnWhitespace | components/EntryEditor.tsx:57 | `split(/\s+/)` yields at least one piece |
| EntryEditing.WordCount | components/EntryEditor.tsx:57 | zero exactly for blank text |
| EntryEditing.WordsBlank | components/EntryEditor.tsx:57 | blank text holds no words |
| EntryEditing.WordsTrimStart | components/EntryEditor.tsx:57 | leading whitespace does not change the word count |
| EntryEditing.WordsTrailing | components/EntryEditor.tsx:57 | trailing whitespace does not change the word count |
| EntryEditing.SplitPieces | components/EntryEditor.tsx:57 | splitting text that does not end in whitespace gives one more piece than word gaps |
| EntryEditing.WordCountIsWords | components/EntryEditor.tsx:57 | the trimmed-split count equals the number of maximal non-whitespace runs |
| EntryEditing.WordCountExamples | components/EntryEditor.tsx:57 | " a \n b " has two words, " \t" none |
| EntryEditing.EntryEditor.constructor | components/EntryEditor.tsx:18-20 | text and tags from the entry, empty tag input |
| EntryEditing.EntryEditor.ShowEntry | components/EntryEditor.tsx:23-26 | a new entry replaces text and tags |
| EntryEditing.EntryEditor.SetNewTag | components/EntryEditor.tsx:122 | the tag input is set; nothing else changes |
| EntryEditing.EntryEditor.HandleTextChange | components/EntryEditor.tsx:36-39 | the text is set and saved with the current tags |
| EntryEditing.EntryEditor.HandleAddTag | components/EntryEditor.tsx:41-49 | a new non-empty normalised tag is appended, the input cleared and the entry saved; otherwise nothing changes |
| EntryEditing.EntryEditor.HandleRemoveTag | components/EntryEditor.tsx:51-55 | the tag is filtered out and the entry saved |
| EntryEditing.EntryEditor.CurrentWordCount | components/EntryEditor.tsx:57 | the number of words of the current text |
| Sync.CreateInitialSyncState | models/SyncState.ts:9-17 | signed in nowhere, idle, never synced, no error |
| Sync.ErrorMessage | context/SyncContext.tsx:98-99 | an Error's message, otherwise "Sync failed" |
| Sync.Started | context/SyncContext.tsx:79-83 | syncing, error cleared, everything else kept |
| Sync.Succeeded | context/SyncContext.tsx:90-94 | idle, last sync time set, everything else kept |
| Sync.Failed | context/SyncContext.tsx:100-104 | idle, error set, last sync time kept |
| Sync.CompletedSync | context/SyncContext.tsx:78-107 | a completed sync is idle with no error and the new time; a failed one is idle with an error and the old time |
| Sync.Selected | context/SyncContext.tsx:148-156 | exactly the signed-in providers, Google first, each once |
| Sync.Settled | context/SyncContext.tsx:158 | `Promise.all` resolves exactly when every outcome succeeds, else rejects with a failing outcome's error |
| Sync.SettledAfter | context/SyncContext.tsx:158 | successful leading outcomes do not affect the settled result |
| Sync.AwaitAll | context/SyncContext.tsx:158 | the waiting loop computes the settled result |
| Sync.SyncProvider.constructor | context/SyncContext.tsx:29-37 | the initial record and no user info |
| Sync.SyncProvider.CheckConnectionStatus | context/SyncContext.tsx:39-76 | sign-in flags and user info from the providers; the stored last sync time when present |
| Sync.SyncProvider.RunSync | context/SyncContext.tsx:78-107 | success stores the time and records it; failure records the message and keeps the store |
| Sync.SyncProvider.SyncWithGoogle | context/SyncContext.tsx:78-107 | a Google sync as above, returning the outcome |
| Sync.SyncProvider.SyncWithOneDrive | context/SyncContext.tsx:109-138 | a OneDrive sync as above, returning the outcome |
| Sync.SyncProvider.SyncAll | context/SyncContext.tsx:140-178 | succeeds exactly when every signed-in provider succeeds, then stores the time; else fails with one of their errors and keeps the store |
| MonthCalendar.MonthGrid | components/Calendar.tsx:36-53 | blank cells up to the first weekday, then every day of the month in order; at most six weeks |
| MonthCalendar.GridColumns | components/Calendar.tsx:44-50 | each day cell sits in its weekday's column |
| MonthCalendar.GridCoversMonth | components/Calendar.tsx:48-50 | every day of the month has exactly one cell |
| MonthCalendar.CalendarDays | components/Calendar.tsx:36-53 | the two loops build the month grid |
| MonthCalendar.PrevMonthAsWritten | components/Calendar.tsx:55-57 | as written: one month back when the day is at most 28, otherwise one month back or the same month |
| MonthCalendar.NextMonthAsWritten | components/Calendar.tsx:59-61 | as written: one month on when the day is at most 28, otherwise one or two months on |
| MonthCalendar.NextMonthSkipsFebruary | components/Calendar.tsx:59-61 | as written, next month from 31 January 2025 is 3 March, two months on |
| MonthCalendar.PrevMonthStays | components/Calendar.tsx:55-57 | as written, previous month from 31 March 2025 is 3 March, the same month |
| MonthCalendar.PrevMonth | components/Calendar.tsx:55-57 | (corrected) moves exactly one month back, clamping the day |
| MonthCalendar.NextMonth | components/Calendar.tsx:59-61 | (corrected) moves exactly one month on, clamping the day |
| MonthCalendar.NextAgrees | components/Calendar.tsx:59-61 | for days up to 28 the corrected and the written next month agree |
| MonthCalendar.PrevAgrees | components/Calendar.tsx:55-57 | for days up to 28 the corrected and the written previous month agree |
| MonthCalendar.NextThenPrev | components/Calendar.tsx:55-61 | next then previous returns to the same month |
| MonthCalendar.WeekendColumns | components/Calendar.tsx:114 | weekend cells are exactly those in the first and last columns |
| MonthCalendar.HasEntry | components/Calendar.tsx:113 | a flagged day from year 100 on is the date of some listed entry-date string |
| MonthCalendar.IsWeekend | components/Calendar.tsx:114 | true for Sunday and Saturday, false for Monday to Friday |
| MonthCalendar.EntryDateKeyOfDay | components/Calendar.tsx:113 | the entry-date string derived from a day's storage key is the day's `dateToKey` |
| MonthCalendar.HasEntryOfStored | components/Calendar.tsx:113 | a day whose entry is stored is flagged as having an entry |
| ExportUtils.DateMatch | utils/exportUtils.ts:60 | the unanchored match: three digit groups of lengths 4, 2, 2 |
| ExportUtils.DateMatchLeftmost | utils/exportUtils.ts:60 | no match exactly when no index starts a date path; otherwise the leftmost such window |
| ExportUtils.ImportablePathMatches | utils/exportUtils.ts:60 | every path import accepts is also matched by export |
| ExportUtils.MatchedDate | utils/exportUtils.ts:63-64 | digit groups naming a valid date from year 100 on give that date |
| ExportUtils.ExportedPathDate | utils/exportUtils.ts:63-64 | an exported file's path gives back the entry's date (four-digit years) |
| ExportUtils.ExportedPathMatch | utils/exportUtils.ts:60 | the match of an exported path is the key's date parts |
| ExportUtils.DateMatchOfDatePath | utils/exportUtils.ts:60 | a digit date path is matched with its own groups |
| ExportUtils.DatePartsOfDay | utils/exportUtils.ts:64 | a date's path parts rebuild the date |
| ExportUtils.EscapeQuotes | utils/exportUtils.ts:68 | each quote doubled: the length grows by the number of quotes |
| ExportUtils.UnescapeEscape | utils/exportUtils.ts:68 | undoubling the quotes restores the text |
| ExportUtils.Preview | utils/exportUtils.ts:68 | `substring(0, 100)`: a prefix of length min(length, 100) |
| ExportUtils.CsvRow | utils/exportUtils.ts:59-74 | a row exactly for files whose path has a date |
| ExportUtils.CsvRowFields | utils/exportUtils.ts:66-74 | the row holds the ISO date, the quote-escaped first 100 characters of the text (or of the raw content when it is not JSON), and the tags joined by ';' or "" |
| ExportUtils.CsvRows | utils/exportUtils.ts:59-75 | at most one row per file |
| ExportUtils.CsvRowsSnoc | utils/exportUtils.ts:59-75 | one loop step: a row is pushed exactly for a dated file |
| ExportUtils.Dated | utils/exportUtils.ts:60-61 | exactly the files whose path has a date |
| ExportUtils.CsvRowsOnePerDated | utils/exportUtils.ts:59-75 | one row per dated file, in order |
| ExportUtils.CsvRowsAppend | utils/exportUtils.ts:59-75 | rows of two lists are the rows of each in turn |
| ExportUtils.TagsColumnSplits | utils/exportUtils.ts:69 | tags without ';' are recovered by splitting the tags column |
| ExportUtils.ExportAsCsv | utils/exportUtils.ts:56-78 | the header and the rows, joined by newlines |
| ExportUtils.StoredEntryRow | utils/exportUtils.ts:66-74 | an entry stored as YAML falls into the non-JSON path: its raw document as text and an empty tags column |
| ExportUtils.EncodedStartsWithKey | utils/exportUtils.ts:67 | a stored document starts with a field name, so it is not JSON |
| ExportUtils.CsvRowsHaveRow | utils/exportUtils.ts:59-75 | every dated file's row is among the rows |
| ExportUtils.StoredDayHasRow | utils/exportUtils.ts:56-78 | every stored day has a row starting with its quoted ISO date |
| ExportUtils.CsvRowStartsWithDate | utils/exportUtils.ts:70-73 | a row starts with the quoted date of its path |
| ExportUtils.CsvLineStartsWithDate | utils/exportUtils.ts:70 | a CSV line starts with its quoted first field |
| ExportUtils.Indented | utils/exportUtils.ts:95-97 | each content line with four spaces in front |
| ExportUtils.IndentedSnoc | utils/exportUtils.ts:95-97 | one inner-loop step appends one indented line |
| ExportUtils.DedentIndented | utils/exportUtils.ts:95-97 | removing the indentation gives the lines back |
| ExportUtils.BlockLines | utils/exportUtils.ts:92-98 | a block has three lines more than the content has lines |
| ExportUtils.YamlBlock | utils/exportUtils.ts:85-98 | a block exactly for files whose path has a date |
| ExportUtils.BlockKeepsContent | utils/exportUtils.ts:92-98 | the block's content lines, de-indented and joined, are the file's content |
| ExportUtils.GatherSnoc | utils/exportUtils.ts:85-99 | one loop step appends one file's block |
| ExportUtils.GatherAppend | utils/exportUtils.ts:85-99 | blocks of two lists are the blocks of each in turn |
| ExportUtils.YamlLinesSnoc | utils/exportUtils.ts:85-99 | one loop step appends the file's block exactly for a dated file |
| ExportUtils.YamlLinesOfOne | utils/exportUtils.ts:85-99 | one file contributes its block, or nothing when its path has no date |
| ExportUtils.PushBlock | utils/exportUtils.ts:92-98 | the pushes of one file append exactly its block |
| ExportUtils.ExportAsYaml | utils/exportUtils.ts:80-102 | the preamble and the blocks, joined by newlines |
| ExportUtils.ExportJournal | utils/exportUtils.ts:11-28 | the store's exported files in the chosen format |
| ExportUtils.GetMimeType | utils/exportUtils.ts:134-145 | each known format has its type, and every other string gets "text/plain" |
| ExportUtils.FormatsHaveTypes | utils/exportUtils.ts:134-145 | no export format falls back to "text/plain" |

## Left out

- Storage failures: AsyncStorage calls always succeed, so the catch blocks that only log a storage error cannot be reached. This includes the catch in `performSearch`, which keeps the old results; `Search.SearchProvider.PerformSearch` always replaces them. What can fail is modelled: YAML load errors, invalid import paths and sync outcomes.
- The tag index is held decoded as a map, not as a JSON string, so `JSON.parse`/`JSON.stringify` of it are left out.
- LocalStorage.JournalStore.GetAllKeys: the order of `getAllKeys` is unspecified. Results that depend on it are stated for an arbitrary enumeration, and the enumeration is a ghost result.
- LocalStorage.SortIsNewestFirst: the source's comparator returns NaN when a date is Invalid, and the order `sort` then produces is implementation-defined. An Invalid Date arises from `saveEntry` with an Invalid Date, which writes "journal:NaN/NaN/NaN", or from a key with the journal prefix written by other code. The model's stable newest-first order matches the source only on stores written through `saveEntry` with valid dates (`LocalStorage.Canonical`).
- Search.SearchResults: without `Canonical` the source can list one day twice, for example for the keys "journal:2024/1/5" and "journal:2024/01/05". The distinct-dates clause is stated only for canonical stores.
- Strings.ToLower: only 'A' to 'Z' are mapped. JavaScript's `toLowerCase` maps all of Unicode (É to é) and can change the length (İ). So tag normalisation (components/EntryEditor.tsx:42, `EntryEditing.NormalizeTag`) and search matching (context/SearchContext.tsx:49, `Search.MatchesText`) treat non-ASCII letters of different case as distinct.
- JavaScript's `Date` range limit (±8.64e15 ms), time zones and the time of day: dates are calendar days in local time.
- `saveEntry`'s tags argument to the index update is unused by the source and is not modelled.
- `Number()` on decimals, exponents and hex: only integer strings, with surrounding whitespace, are modelled. Anything else is NaN.
- `parseInt` in `importEntry` and in the export date is modelled as the digits' value. `Strings.ParseIntDigits` proves the two agree on digit strings. `ExportUtils.MatchedDate` uses the value directly.
- Sync.SyncProvider.SyncAll: the fullSync calls are not concurrent. When several selected providers fail, the error reported is the first in array order rather than the first to settle in time.
- The network services (Google Drive, OneDrive: `isConnected`, `getUserInfo`, `fullSync`) are not part of this model. Their results are parameters.
- The clock (`new Date().toISOString()`) is the parameter `now`. `toISOString` of a date is the parameter `iso`.
- `JSON.parse` in CSV export is the parameter `parse` (text and tags of a JSON object, or none). Export as JSON (`exportAsJSON`) is the parameter `toJson`.
- `shareExport` (file system and share sheet), display formatting (`formatDisplayDate`, `formatShortDate`, `formatMonthYear`), `isToday` and `parseDate` are left out. They need the locale, the clock or the file system.
- React rendering, the editor's focus timer and the weekday header labels are user interface and are left out.
- String lengths count characters, not UTF-16 code units, so `substring(0, 100)` may cut a surrogate pair differently.
- js-yaml is replaced by a line format that handles the records the store writes. Other YAML documents are rejected as load errors.

## Findings

| source | as written | input that shows it | evidently intended | confidence | as-written member | corrected member |
|---|---|---|---|---|---|---|
| components/Calendar.tsx:55-61 | next and previous month call `addMonths`, i.e. `setMonth`, on the shown date, which starts as today; a day missing from the target month carries over | shown date 31 January 2025, press "next": 3 March 2025 is shown and February is skipped; from 31 March 2025, "previous" stays in March | move exactly one month, e.g. with the day clamped or the date set to day 1 | not executed | MonthCalendar.NextMonthSkipsFebruary | MonthCalendar.NextMonth |
