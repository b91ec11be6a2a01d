/** `SearchService`: the search predicate built by `search_entries` and
    `_apply_filters`, and the frequency bump of `_update_frequencies`. */
module Search {
  import opened Wrappers
  import opened Text
  import opened Seqs
  import opened Models
  import opened Store

  /** The `filters` dictionary. For the three category keys, an absent key
      and a key holding `None` are both `None`. An absent `query` reads as
      `''`. A `query` holding `None` would make `icontains` raise, but the
      search view always passes a string there, so `None` stands for an
      absent key only. */
  datatype SearchFilters = SearchFilters(
    partOfSpeech: Option<string>,
    genre: Option<string>,
    language: Option<string>,
    query: Option<string>)

  /** Python truthiness of an optional string. */
  predicate Truthy(v: Option<string>) {
    v.Some? && v.value != ""
  }

  /** `filters.get('query', '')`. */
  function FilterQuery(f: SearchFilters): string {
    f.query.GetOr("")
  }

  /** The OR of the five `icontains` terms. The two example terms range over
      the examples linked to the entry. */
  predicate TextMatch(e: CulturalEntry, exs: seq<UsageExample>, q: string) {
    || IContains(e.isiZuluText, q)
    || IContains(e.englishTranslation, q)
    || IContains(e.culturalContext, q)
    || exists k :: 0 <= k < |exs| && exs[k].entryId == e.id &&
         (IContains(exs[k].isiZuluExample, q) || IContains(exs[k].englishExample, q))
  }

  /** `_apply_filters`: the AND of the terms the dictionary switches on. */
  predicate FilterMatch(e: CulturalEntry, f: SearchFilters) {
    && (Truthy(f.partOfSpeech) ==> e.partOfSpeech == f.partOfSpeech.value)
    && (Truthy(f.genre) ==> e.genre == f.genre.value)
    && (if f.language == Some("isizulu") then IContains(e.isiZuluText, FilterQuery(f))
        else if f.language == Some("english") then IContains(e.englishTranslation, FilterQuery(f))
        else true)
  }

  /** The whole `Q` object. `filters == None` stands for a missing or empty
      dictionary, which Python treats as false. */
  predicate Matches(e: CulturalEntry, exs: seq<UsageExample>, query: string, filters: Option<SearchFilters>) {
    && e.isActive
    && (query != "" ==> TextMatch(e, exs, query))
    && (filters.Some? ==> FilterMatch(e, filters.value))
  }

  /** `CulturalEntry.objects.filter(search_query).distinct()` in the default
      newest-first order. */
  function SearchResults(entries: seq<CulturalEntry>, exs: seq<UsageExample>, query: string,
                         filters: Option<SearchFilters>): (r: seq<CulturalEntry>)
    ensures |r| <= |entries|
    ensures forall e :: e in r <==> e in entries && Matches(e, exs, query, filters)
  {
    var f := Filter(entries, (e: CulturalEntry) => Matches(e, exs, query, filters));
    ReverseMembers(f);
    NewestFirst(f)
  }

  /** The results are exactly the matching rows of the table, each row once,
      newest first. */
  lemma SearchResultsSpec(entries: seq<CulturalEntry>, exs: seq<UsageExample>, query: string,
                          filters: Option<SearchFilters>)
    requires IdsIncreasing(entries) && CreationOrdered(entries)
    ensures var r := SearchResults(entries, exs, query, filters);
      && (forall e :: e in r <==> e in entries && Matches(e, exs, query, filters))
      && (forall i, j :: 0 <= i < j < |r| ==> r[i].id != r[j].id)
      && (forall i, j :: 0 <= i < j < |r| ==> r[i].createdAt > r[j].createdAt)
  {
    var p := (e: CulturalEntry) => Matches(e, exs, query, filters);
    var f := Filter(entries, p);
    FilterKeepsOrder(entries, p, (a: CulturalEntry, b: CulturalEntry) => a.id < b.id);
    FilterKeepsOrder(entries, p, (a: CulturalEntry, b: CulturalEntry) => a.createdAt < b.createdAt);
    assert IdsIncreasing(f) && CreationOrdered(f);
    NewestFirstSpec(f);
  }

  /** With an empty query and no filters, search returns the active
      entries, in the same order as the unfiltered listing. */
  lemma EmptyQuerySelectsActive(entries: seq<CulturalEntry>, exs: seq<UsageExample>)
    ensures SearchResults(entries, exs, "", None) == ActiveEntries(entries)
  {
    FilterCongruent(entries, (e: CulturalEntry) => Matches(e, exs, "", None), (e: CulturalEntry) => e.isActive);
  }

  /** With a non-empty query an active entry matches exactly when the folded
      query occurs in one of its three texts or in a text of one of its examples. */
  lemma QueryMatchIff(e: CulturalEntry, exs: seq<UsageExample>, query: string)
    requires query != ""
    ensures Matches(e, exs, query, None) <==>
      e.isActive &&
      (|| (exists i :: OccursAt(Lower(e.isiZuluText), Lower(query), i))
       || (exists i :: OccursAt(Lower(e.englishTranslation), Lower(query), i))
       || (exists i :: OccursAt(Lower(e.culturalContext), Lower(query), i))
       || (exists k, i :: 0 <= k < |exs| && exs[k].entryId == e.id &&
             (OccursAt(Lower(exs[k].isiZuluExample), Lower(query), i) ||
              OccursAt(Lower(exs[k].englishExample), Lower(query), i))))
  {
    var q := Lower(query);
    ContainsIff(Lower(e.isiZuluText), q);
    ContainsIff(Lower(e.englishTranslation), q);
    ContainsIff(Lower(e.culturalContext), q);
    forall k | 0 <= k < |exs|
      ensures IContains(exs[k].isiZuluExample, query) <==> exists i :: OccursAt(Lower(exs[k].isiZuluExample), q, i)
      ensures IContains(exs[k].englishExample, query) <==> exists i :: OccursAt(Lower(exs[k].englishExample), q, i)
    {
      ContainsIff(Lower(exs[k].isiZuluExample), q);
      ContainsIff(Lower(exs[k].englishExample), q);
    }
  }

  /** The language filter restricts the query to one text field, and any
      other language value adds nothing. */
  lemma LanguageFilterSpec(e: CulturalEntry, f: SearchFilters)
    requires !Truthy(f.partOfSpeech) && !Truthy(f.genre)
    ensures f.language == Some("isizulu") ==>
      (FilterMatch(e, f) <==> exists i :: OccursAt(Lower(e.isiZuluText), Lower(FilterQuery(f)), i))
    ensures f.language == Some("english") ==>
      (FilterMatch(e, f) <==> exists i :: OccursAt(Lower(e.englishTranslation), Lower(FilterQuery(f)), i))
    ensures f.language != Some("isizulu") && f.language != Some("english") ==> FilterMatch(e, f)
  {
    ContainsIff(Lower(e.isiZuluText), Lower(FilterQuery(f)));
    ContainsIff(Lower(e.englishTranslation), Lower(FilterQuery(f)));
  }

  /** Every result of a filtered search has the requested part of speech and
      genre, where those values are non-empty; empty values switch their
      filters off. Without a query and a language restriction, the results
      are exactly the active entries of that part of speech and genre. */
  lemma CategoryFilterSpec(entries: seq<CulturalEntry>, exs: seq<UsageExample>, query: string, f: SearchFilters)
    ensures forall e :: e in SearchResults(entries, exs, query, Some(f)) ==>
      && (Truthy(f.partOfSpeech) ==> e.partOfSpeech == f.partOfSpeech.value)
      && (Truthy(f.genre) ==> e.genre == f.genre.value)
    ensures f.language != Some("isizulu") && f.language != Some("english") ==>
      forall e :: e in SearchResults(entries, exs, "", Some(f)) <==>
        && e in entries && e.isActive
        && (Truthy(f.partOfSpeech) ==> e.partOfSpeech == f.partOfSpeech.value)
        && (Truthy(f.genre) ==> e.genre == f.genre.value)
  {
  }

  // ---------------------------------------------------------------------
  // Frequency bump

  /** Every row with its counter one higher. */
  function Bump(rows: seq<CulturalEntry>): (r: seq<CulturalEntry>)
    ensures |r| == |rows|
  {
    seq(|rows|, k requires 0 <= k < |rows| => rows[k].(frequency := rows[k].frequency + 1))
  }

  /** `_update_frequencies`, first half: the loop over the fetched rows, each
      in-memory copy's `frequency` incremented in place. */
  method UpdateFrequencies(cache: array<CulturalEntry>)
    modifies cache
    ensures cache[..] == Bump(old(cache[..]))
  {
    var k := 0;
    while k < cache.Length
      invariant 0 <= k <= cache.Length
      invariant forall j :: 0 <= j < k ==> cache[j] == old(cache[j]).(frequency := old(cache[j]).frequency + 1)
      invariant forall j :: k <= j < cache.Length ==> cache[j] == old(cache[j])
    {
      cache[k] := cache[k].(frequency := cache[k].frequency + 1);
      k := k + 1;
    }
  }

  /** Writing back bumped copies of some rows of a table with distinct ids
      raises the counter of exactly those rows by one. */
  lemma FrequencyAfterBump(entries: seq<CulturalEntry>, res: seq<CulturalEntry>, i: nat)
    requires IdsIncreasing(entries) && i < |entries|
    requires forall e :: e in res ==> e in entries
    ensures FrequencyFor(Bump(res), entries[i]) == entries[i].frequency + if entries[i] in res then 1 else 0
  {
    var rows, e := Bump(res), entries[i];
    forall k | 0 <= k < |rows| && rows[k].id == e.id ensures res[k] == e {
      assert res[k] in res;
      var j :| 0 <= j < |entries| && entries[j] == res[k];
      assert entries[j].id == entries[i].id;
    }
    if e in res {
      var k :| 0 <= k < |res| && res[k] == e;
      assert rows[k].id == e.id;
      FrequencyForPresent(rows, e, e.frequency + 1);
    } else {
      forall k | 0 <= k < |rows| ensures rows[k].id != e.id {
        assert res[k] in res;
      }
      FrequencyForAbsent(rows, e);
    }
  }

  /** After search writes back the bumped results, every matching row of the
      table has its counter raised by exactly one, and every other row, and
      every other column, is unchanged. */
  lemma SearchBumpsExactlyMatches(entries: seq<CulturalEntry>, exs: seq<UsageExample>, query: string,
                                  filters: Option<SearchFilters>)
    requires IdsIncreasing(entries) && CreationOrdered(entries)
    ensures var r := BulkUpdateFrequency(entries, Bump(SearchResults(entries, exs, query, filters)));
      |r| == |entries| &&
      forall i :: 0 <= i < |entries| ==>
        r[i] == entries[i].(frequency := entries[i].frequency + if Matches(entries[i], exs, query, filters) then 1 else 0)
  {
    var res := SearchResults(entries, exs, query, filters);
    SearchResultsSpec(entries, exs, query, filters);
    forall i | 0 <= i < |entries|
      ensures FrequencyFor(Bump(res), entries[i]) ==
        entries[i].frequency + if Matches(entries[i], exs, query, filters) then 1 else 0
    {
      FrequencyAfterBump(entries, res, i);
    }
  }
}
