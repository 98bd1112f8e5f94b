/** The search provider: a text and tag filter over every stored entry,
    the results newest first, and the set of tags selected for filtering. */
module Search {
  import opened Wrappers
  import opened Strings
  import opened JournalEntries
  import opened LocalStorage

  /** `query === "" || text.toLowerCase().includes(query.toLowerCase())`:
      the empty query matches every entry; any other matches when its
      lower-cased form occurs somewhere in the lower-cased text. */
  predicate MatchesText(query: string, e: JournalEntry): (b: bool)
    ensures query == "" ==> b
    ensures query != "" ==> (b <==> exists i :: OccursAt(ToLower(e.text), ToLower(query), i))
  {
    query == "" || Contains(ToLower(e.text), ToLower(query))
  }

  /** The text match ignores the ASCII case of the query. */
  lemma MatchesTextIgnoresCase(query: string, e: JournalEntry)
    ensures MatchesText(ToLower(query), e) == MatchesText(query, e)
  {
    ToLowerIdempotent(query);
  }

  /** Every filter tag is among the entry's tags (`every` on no tags holds). */
  predicate MatchesTags(filter: set<string>, e: JournalEntry): (b: bool)
    ensures filter == {} ==> b
    ensures b <==> filter <= set t | t in e.tags
  {
    forall t :: t in filter ==> t in e.tags
  }

  predicate Matches(query: string, filter: set<string>, x: DatedEntry) {
    MatchesText(query, x.entry) && MatchesTags(filter, x.entry)
  }

  /** `tags || Array.from(selectedTags)`: an explicit list, even an empty
      one, is used instead of the selected tags; only which tags it holds
      matters to `every`. */
  function TagsToFilter(tags: Option<seq<string>>, selected: set<string>): (r: set<string>)
    ensures tags.Some? ==> forall t :: t in r <==> t in tags.value
    ensures tags.None? ==> r == selected
  {
    match tags
    case Some(list) => set t | t in list
    case None => selected
  }

  /** The loaded entries (in their order) that match the query and filter
      (MatchingMembers: exactly those, none more often than in s). */
  function Matching(s: seq<DatedEntry>, query: string, filter: set<string>): seq<DatedEntry> {
    if s == [] then []
    else
      var rest := Matching(s[..|s| - 1], query, filter);
      var last := s[|s| - 1];
      if Matches(query, filter, last) then rest + [last] else rest
  }

  lemma {:induction false} MatchingMembers(s: seq<DatedEntry>, query: string, filter: set<string>)
    ensures forall x :: x in Matching(s, query, filter) <==> x in s && Matches(query, filter, x)
    ensures multiset(Matching(s, query, filter)) <= multiset(s)
  {
    if s != [] {
      var init := s[..|s| - 1];
      MatchingMembers(init, query, filter);
      assert s == init + [s[|s| - 1]];
    }
  }

  lemma MatchingSnoc(s: seq<DatedEntry>, x: DatedEntry, query: string, filter: set<string>)
    ensures Matching(s + [x], query, filter) ==
      if Matches(query, filter, x) then Matching(s, query, filter) + [x] else Matching(s, query, filter)
  {
    assert (s + [x])[..|s|] == s;
  }

  /** With the empty query and no filter tag, every entry is kept, in order. */
  lemma {:induction false} MatchingUnfiltered(s: seq<DatedEntry>)
    ensures Matching(s, "", {}) == s
  {
    if s != [] {
      MatchingUnfiltered(s[..|s| - 1]);
      assert s == s[..|s| - 1] + [s[|s| - 1]];
    }
  }

  /** An explicit empty tag list ignores the selected tags: with the empty
      query it keeps every entry. */
  lemma EmptyTagsMatchAll(s: seq<DatedEntry>, selected: set<string>)
    ensures Matching(s, "", TagsToFilter(Some([]), selected)) == s
  {
    assert TagsToFilter(Some([]), selected) == {};
    MatchingUnfiltered(s);
  }

  /** The results of a search over the date strings of the journal keys:
      newest first; each a matching entry loaded for some journal key;
      every journal key whose entry matches contributing; and no entry
      more often than it was loaded, that is once per key. When every
      journal key is the key of its own date, no date appears twice. */
  lemma SearchResults(items: map<string, string>, dates: seq<string>, keys: seq<string>, query: string, filter: set<string>)
    requires DatesOfKeys(items, dates, keys)
    ensures var r := SortNewestFirst(Matching(LoadedOf(items, dates), query, filter));
      && NewestFirst(r)
      && (forall x :: x in r ==> Matches(query, filter, x))
      && (forall x :: x in r ==> exists k :: k in JournalKeys(items) && JournalPrefix <= k && x == LoadKey(items, k))
      && (forall k :: k in JournalKeys(items) && JournalPrefix <= k && Matches(query, filter, LoadKey(items, k)) ==> LoadKey(items, k) in r)
      && multiset(r) <= multiset(LoadedOf(items, dates))
      && (Canonical(items) ==> DistinctDates(r))
  {
    var loaded := LoadedOf(items, dates);
    var found := Matching(loaded, query, filter);
    var r := SortNewestFirst(found);
    MatchingMembers(loaded, query, filter);
    SortIsNewestFirst(found);
    LoadedCoversKeys(items, dates, keys);
    LoadedFromKeys(items, dates, keys);
    forall x
      ensures x in r <==> x in found
    {
      assert x in r <==> x in multiset(r);
    }
    ResultsDistinctDates(items, dates, keys, query, filter);
  }

  /** On a store where every journal key is the key of its own date, the
      results carry distinct dates. */
  lemma ResultsDistinctDates(items: map<string, string>, dates: seq<string>, keys: seq<string>, query: string, filter: set<string>)
    requires DatesOfKeys(items, dates, keys)
    ensures Canonical(items) ==> DistinctDates(SortNewestFirst(Matching(LoadedOf(items, dates), query, filter)))
  {
    if Canonical(items) {
      var loaded := LoadedOf(items, dates);
      var found := Matching(loaded, query, filter);
      MatchingMembers(loaded, query, filter);
      LoadedDistinctDates(items, dates, keys);
      DistinctDatesOfSub(SortNewestFirst(found), loaded);
    }
  }

  /** No two elements carry the same date. */
  predicate DistinctDates(s: seq<DatedEntry>) {
    forall i, j :: 0 <= i < j < |s| ==> s[i].date != s[j].date
  }

  /** In a store where every journal key is the key of its own date, the
      entries loaded for the journal keys have distinct dates. */
  lemma LoadedDistinctDates(items: map<string, string>, dates: seq<string>, keys: seq<string>)
    requires DatesOfKeys(items, dates, keys) && Canonical(items)
    ensures DistinctDates(LoadedOf(items, dates))
  {
    var loaded := LoadedOf(items, dates);
    forall i, j | 0 <= i < j < |loaded|
      ensures loaded[i].date != loaded[j].date
    {
      LoadedOfKeys(items, dates, keys, i);
      LoadedOfKeys(items, dates, keys, j);
      assert keys[i] != keys[j];
      assert keys[i] in JournalKeys(items) && keys[j] in JournalKeys(items);
    }
  }

  /** Taking fewer copies of the elements of a list with distinct dates
      keeps the dates distinct. */
  lemma DistinctDatesOfSub(r: seq<DatedEntry>, s: seq<DatedEntry>)
    requires multiset(r) <= multiset(s) && DistinctDates(s)
    ensures DistinctDates(r)
  {
    forall i, j | 0 <= i < j < |r|
      ensures r[i].date != r[j].date
    {
      assert r[i] in multiset(s) && r[j] in multiset(s);
      var p :| 0 <= p < |s| && s[p] == r[i];
      var q :| 0 <= q < |s| && s[q] == r[j];
      if r[i] == r[j] {
        TwiceInMultiset(r, i, j);
        OnceInMultiset(s, p);
      } else {
        assert p != q;
      }
    }
  }

  /** An element at two indices occurs at least twice. */
  lemma TwiceInMultiset(r: seq<DatedEntry>, i: int, j: int)
    requires 0 <= i < j < |r| && r[i] == r[j]
    ensures multiset(r)[r[i]] >= 2
  {
    assert r == r[..i] + [r[i]] + r[i + 1..j] + [r[j]] + r[j + 1..];
  }

  /** In a list with distinct dates an element occurs once. */
  lemma {:induction false} OnceInMultiset(s: seq<DatedEntry>, p: int)
    requires DistinctDates(s) && 0 <= p < |s|
    ensures multiset(s)[s[p]] == 1
  {
    var x := s[p];
    assert s == s[..p] + [x] + s[p + 1..];
    assert forall a :: 0 <= a < |s| && a != p ==> s[a].date != x.date;
    assert x !in s[..p];
    assert x !in s[p + 1..];
  }

  /** The loop of performSearch: for each date string, the date and entry
      loaded for it, kept when they match. */
  method SearchEntries(load: string -> DatedEntry, dates: seq<string>, query: string, filter: set<string>)
    returns (results: seq<DatedEntry>)
    ensures results == Matching(LoadedBy(load, dates), query, filter)
  {
    results := [];
    var i := 0;
    while i < |dates|
      invariant 0 <= i <= |dates|
      invariant results == Matching(LoadedBy(load, dates[..i]), query, filter)
    {
      var x := load(dates[i]);
      ghost var loaded := LoadedBy(load, dates[..i]);
      LoadedBySnoc(load, dates, i);
      MatchingSnoc(loaded, x, query, filter);
      if Matches(query, filter, x) {
        results := results + [x];
      }
      i := i + 1;
    }
    assert dates[..|dates|] == dates;
  }

  /** The search itself over the store's entries, newest first. */
  method RunSearch(store: JournalStore, query: string, filter: set<string>)
    returns (results: seq<DatedEntry>, ghost dates: seq<string>, ghost keys: seq<string>)
    ensures DatesOfKeys(store.items, dates, keys)
    ensures results == SortNewestFirst(Matching(LoadedOf(store.items, dates), query, filter))
  {
    var allDates;
    allDates, keys := store.GetAllEntryDates();
    var found := SearchEntries(Loader(store.items), allDates, query, filter);
    results := SortNewestFirst(found);
    dates := allDates;
  }

  /** `toggleTag` on a copy of the set: an absent tag is added, a present
      one removed; no other tag changes. */
  function Toggled(selected: set<string>, tag: string): (r: set<string>)
    ensures tag in r <==> tag !in selected
    ensures forall t :: t != tag ==> (t in r <==> t in selected)
  {
    if tag in selected then selected - {tag} else selected + {tag}
  }

  /** Toggling the same tag twice restores the selection. */
  lemma ToggleTwice(selected: set<string>, tag: string)
    ensures Toggled(Toggled(selected, tag), tag) == selected
  {
    var once := Toggled(selected, tag);
    var twice := Toggled(once, tag);
    assert forall t :: t in twice <==> t in selected;
  }

  class SearchProvider {
    var searchQuery: string
    var selectedTags: set<string>
    var searchResults: seq<DatedEntry>
    var isSearching: bool

    /** The initial state: no query, no tag selected, no results. */
    constructor()
      ensures searchQuery == "" && selectedTags == {} && searchResults == [] && !isSearching
    {
      searchQuery := "";
      selectedTags := {};
      searchResults := [];
      isSearching := false;
    }

    /** `performSearch`: the entries of every stored date that match the
        query and the filter tags (`tags` when given, else the selected
        tags), newest first; the query and selection are left as they are
        and the provider is no longer searching. */
    method PerformSearch(store: JournalStore, query: string, tags: Option<seq<string>>)
      returns (ghost dates: seq<string>, ghost keys: seq<string>)
      modifies this
      ensures searchQuery == old(searchQuery) && selectedTags == old(selectedTags)
      ensures !isSearching
      ensures DatesOfKeys(store.items, dates, keys)
      ensures searchResults == SortNewestFirst(Matching(LoadedOf(store.items, dates), query, TagsToFilter(tags, selectedTags)))
    {
      var results;
      isSearching := true;
      results, dates, keys := RunSearch(store, query, TagsToFilter(tags, selectedTags));
      isSearching, searchResults := false, results;
    }

    /** `setSearchQuery` as provided: record the query, then search for it
        with the selected tags. */
    method HandleSetSearchQuery(store: JournalStore, query: string)
      returns (ghost dates: seq<string>, ghost keys: seq<string>)
      modifies this
      ensures searchQuery == query && selectedTags == old(selectedTags) && !isSearching
      ensures DatesOfKeys(store.items, dates, keys)
      ensures searchResults == SortNewestFirst(Matching(LoadedOf(store.items, dates), query, selectedTags))
    {
      searchQuery := query;
      dates, keys := PerformSearch(store, query, None);
    }

    /** `toggleTag`: the selection with `tag` flipped. */
    method ToggleTag(tag: string)
      modifies this
      ensures selectedTags == Toggled(old(selectedTags), tag)
      ensures searchQuery == old(searchQuery) && searchResults == old(searchResults) && isSearching == old(isSearching)
    {
      selectedTags := Toggled(selectedTags, tag);
    }

    /** `clearTags`: no tag selected. */
    method ClearTags()
      modifies this
      ensures selectedTags == {}
      ensures searchQuery == old(searchQuery) && searchResults == old(searchResults) && isSearching == old(isSearching)
    {
      selectedTags := {};
    }
  }
}
