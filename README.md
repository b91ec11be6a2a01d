# isiZulu cultural corpus: a Dafny model of the corpus backend

This project models the core of the Django backend of the isiZulu cultural
corpus: a store of cultural entries (words, proverbs, idioms, narratives,
songs), each with usage examples, translations into other South African
languages and collocations, and an activity log. The model covers:

- the records and their defaults, choice lists and orderings (`Models`);
- the database tables the ORM writes (`Store`), as a `Database` class whose
  methods change its tables in place;
- the search service: the `Q` predicate, the filters and the frequency
  write-back (`Search`, `Services`);
- the JSON import service, both as written and as intended (`Services`);
- the nested create and update of the entry serializer (`Serializers`);
- the entry filter set (`Filters`);
- the analytics figures: word frequency, corpus statistics and usage
  statistics (`Analytics`);
- the viewset's search and import actions, its create, update and destroy
  hooks, and the client address it records (`Views`).

`Text`, `Seqs` and `Sorting` hold the string, sequence and stable-sort
operations these rely on. `Wrappers` holds `Option` and `Result`.

## How the model is set up

- **Tables.** A table is a sequence of rows in primary-key order, with the
  next id kept per table. `created_at` is the tick of one shared creation
  counter, so the default newest-first order of entries and logs is the
  reverse of table order.
- **Failures.** `Database.online` stands for whether the database can be
  reached. When it is false, every query fails with `Unavailable`, whether
  it reads or writes, and the tables stay as they were. Entering
  `transaction.atomic` opens the connection, so it fails too. Search,
  import, create, update and destroy therefore all fail offline before
  touching a row. `log_activity` swallows its own failure. The statistics
  and the filter set are modelled as functions of the tables, so they have
  no offline case.
- **Uniqueness.** A second translation of an entry into the same language
  violates the `unique_together` constraint. It fails with `IntegrityError`
  after the earlier rows of the same call have been written.
- **Atomic blocks.** `transaction.atomic` (services.py:73) is modelled by
  `Database.Rollback` to a snapshot. The snapshot includes the next-id
  counters, so ids used inside a rolled-back block are handed out again.
  SQLite behaves this way, because its key counter lives in the rolled-back
  table. A PostgreSQL sequence is not rolled back, so there the ids would
  show a gap instead.
- **Import records.** Each element of an import list is a JSON object. Its
  scalar values are strings or null. `examples` is a list of objects, a value
  that cannot be iterated, or another iterable (a string or an object).
  `additional_translations` is an object or any other value.
- **Filter numbers.** A number parameter arrives already parsed as a finite
  decimal or as invalid text. The integer column compares with the value
  truncated toward zero.
- **Client address.** A blank address is stored as NULL, as a
  `GenericIPAddressField` stores it.
- **Case folding.** It is ASCII-only, as in the `LIKE` operator of SQLite.
- **Text order.** `ORDER BY` on a text column uses SQLite's default `BINARY`
  collation. This compares UTF-8 bytes, which orders strings by code point,
  with a proper prefix first.
- **Detail lookups.** `get_object` runs the viewset's filter backends on the
  request's query string before it looks up the key (views.py:21-23). The
  filter set rejects an invalid parameter with a 400 before any query is
  sent. `SearchFilter` drops null characters from `search`, reads commas as
  spaces and splits on whitespace. Each term must then occur, ignoring case,
  in one of the three `search_fields`.
- **Word tokens.** `\w` is the ASCII letters, digits and `_`. `str.split()`
  splits on the characters of Python's `str.isspace()`.

## Model

| member | source | states |
|---|---|---|
| Models.NewEntry | backend/corpus/models.py:67-73 | A created entry has the given id and creation tick and a frequency of 0. Its active flag defaults to true. Data that passes field validation gives a valid entry. |
| Models.ExampleRows | backend/corpus/models.py:90-103 | One example row per item, linked to the entry, with consecutive ids, carrying exactly the given texts. |
| Models.TranslationRows | backend/corpus/models.py:112-132 | One translation row per item, linked to the entry, with consecutive ids, carrying exactly the given language and text. |
| Models.NewCollocation | backend/corpus/models.py:142-149 | A new collocation is linked to its entry with the given phrase and a frequency of 1. |
| Models.NewestFirstSpec | backend/corpus/models.py:85 | The default entry order lists the same rows, each once, by strictly descending creation time. |
| Models.ActiveEntries | backend/corpus/views.py:19 | The viewset's queryset holds exactly the stored entries whose active flag is set. |
| Models.ExamplesOfSpec | backend/corpus/models.py:91-107 | An entry's examples are exactly the example rows linked to it, by ascending id. |
| Models.TranslationsOfSpec | backend/corpus/models.py:134-137 | An entry's translations are exactly the rows linked to it, one per language, in strictly increasing order of the language string, whether or not the language is a choice. |
| Models.TranslationOutsideChoicesOrdered | backend/corpus/models.py:137 | A language outside the choice list is ordered by its spelling, so `afrikaans` comes ahead of `isixhosa`. |
| Models.LanguageBeforeTotal | backend/corpus/models.py:137 | Ordering translations by language string is a total preorder. |
| Models.CollocationsOfSpec | backend/corpus/models.py:151-154 | An entry's collocations are exactly the rows linked to it, most frequent first. |
| Store.InsertEntry | backend/corpus/models.py:13-73 | Creating an entry appends one new row with the next id and tick, changes nothing else, and keeps the tables well formed. |
| Store.InsertTranslation | backend/corpus/models.py:136 | A translation can be added only for a language the entry does not have yet. It appends exactly one row and keeps the tables well formed. |
| Store.StoredIp | backend/corpus/models.py:178 | A blank client address is stored as NULL. Every other address, and a missing one, is stored as given. No stored address is blank. |
| Store.DeleteExamplesOf | backend/corpus/serializers.py:78 | Deleting an entry's examples keeps exactly the other entries' example rows, in order. |
| Store.DeleteTranslationsOf | backend/corpus/serializers.py:84 | Deleting an entry's translations keeps exactly the other rows, and the entry is left with no language. |
| Store.InsertEntryWithRows | backend/corpus/serializers.py:51-65 | A nested create appends the entry, then its examples, then its translations. Tables stay well formed. |
| Store.FrequencyForPresent | backend/corpus/services.py:65-67 | A row whose key is among the updated rows, all with the same counter, takes that counter. |
| Store.FrequencyForAbsent | backend/corpus/services.py:65-67 | A row whose key is not among the updated rows keeps its counter. |
| Store.WriteFrequencies | backend/corpus/services.py:67 | `bulk_update` writes only the frequency column, and tables stay well formed. |
| Store.Database.CreateEntry | backend/corpus/serializers.py:55 | Online, the table gains exactly the new entry. Offline, the call fails and nothing changes. |
| Store.Database.CreateExample | backend/corpus/serializers.py:58-59 | Online, exactly one example row linked to the entry is appended. Offline, the call fails and nothing changes. |
| Store.Database.CreateTranslation | backend/corpus/models.py:136 | A duplicate language fails with an integrity error and changes nothing. Otherwise one row is added. |
| Store.Database.Save | backend/corpus/serializers.py:74 | `save()` replaces the one stored row and nothing else. |
| Store.Database.DeleteExamples | backend/corpus/serializers.py:78 | Online, exactly the entry's example rows are removed. Offline, the call fails and nothing changes. |
| Store.Database.DeleteTranslations | backend/corpus/serializers.py:84 | Online, exactly the entry's translation rows are removed. Offline, the call fails and nothing changes. |
| Store.Database.CreateLog | backend/corpus/services.py:136-141 | Online, exactly one log row is appended. |
| Store.Database.BulkUpdate | backend/corpus/services.py:67 | Online, the tables become the frequency write-back of the given rows. |
| Store.Database.CreateExamples | backend/corpus/serializers.py:58-59 | Online, all example rows are appended in order. |
| Store.Database.CreateTranslations | backend/corpus/serializers.py:62-63 | The loop succeeds exactly when the languages are distinct. On failure, the translations before the first repeated language stay written. |
| Store.Database.Rollback | backend/corpus/services.py:73 | Leaving the atomic block on an exception restores the snapshot. |
| Text.ContainsIff | backend/corpus/services.py:22-26 | The substring scan behind `icontains` succeeds exactly when the pattern occurs at some position. |
| Text.LowerIsLower | backend/analytics/services.py:20 | Lower-casing leaves no upper-case letter and is idempotent. |
| Text.SplitLower | backend/analytics/services.py:43 | Splitting the lower-cased text gives the lower-cased tokens, and as many of them as splitting the original text. |
| Text.FindWordsJoin | backend/analytics/services.py:14-20 | The words of the space-joined texts are the words of each text in turn. |
| Text.NatToString | backend/corpus/services.py:118 | A count renders as a non-empty string of decimal digits, which starts with `0` only for zero. |
| Text.NatToStringValue | backend/corpus/services.py:118 | Reading the rendered digits back as a decimal number gives the count. |
| Text.LexLeTotal | backend/corpus/models.py:137 | Any two strings are comparable in the text order. |
| Text.LexLeTrans | backend/corpus/models.py:137 | The text order is transitive. |
| Text.LexLeAntisymmetric | backend/corpus/models.py:137 | Only equal strings compare both ways. |
| Text.Strip | backend/corpus/filters.py:6-13 | The stripped text is the part of the input between its leading and trailing whitespace. It begins and ends with a non-space, and it is empty exactly when the input is all whitespace. |
| Sorting.SortBy | backend/corpus/models.py:137 | Under a total preorder, the sort is a permutation, lists every pair in order, and keeps distinct items distinct. |
| Sorting.SortDesc | backend/analytics/services.py:21-23 | The descending sort behind `most_common` is a permutation, is ordered by count, and keeps distinct items distinct. |
| Search.SearchResults | backend/corpus/services.py:17-33 | The results are at most as many as the rows, and a row is among them exactly when it is stored and matches the `Q` object. |
| Search.SearchResultsSpec | backend/corpus/services.py:17-33 | Search returns exactly the matching rows, each once (`distinct`), newest first. |
| Search.EmptyQuerySelectsActive | backend/corpus/services.py:18-20 | With an empty query and no filters, search returns the same list as the viewset's active queryset. |
| Search.QueryMatchIff | backend/corpus/services.py:20-27 | A non-empty query matches an active entry exactly when one of its three text fields, or one of its examples' two texts, contains the query case-insensitively. |
| Search.LanguageFilterSpec | backend/corpus/services.py:55-58 | The `isizulu` and `english` language filters test the query against that one field. Any other language value adds no condition. |
| Search.CategoryFilterSpec | backend/corpus/services.py:49-58 | Every result has the requested part of speech and genre when they are non-empty. With an empty query and a language other than the two known ones, a row is a result exactly when it is active and passes the two category tests. |
| Search.UpdateFrequencies | backend/corpus/services.py:65-66 | The loop over the result cache raises every cached row's counter by one. |
| Search.SearchBumpsExactlyMatches | backend/corpus/services.py:33-67 | After the write-back, each matching row's counter is one higher. Every other row and column is unchanged. |
| Filters.InvalidFields | backend/corpus/filters.py:6-34 | A field is reported invalid exactly when its text holds a null character, its choice is outside its list, or its number is not a finite decimal. Fields are reported in form order, the two texts first. No field is reported exactly when all are valid. |
| Filters.TextOkStripped | backend/corpus/filters.py:6-9 | The null-character check on the stripped text agrees with the same check on the raw text. |
| Filters.FailingSame | backend/corpus/filters.py:5-34 | Parameters on which every field check agrees report the same failing fields. |
| Filters.FilterQueryset | backend/corpus/filters.py:5-34 | The filter fails exactly when some parameter is invalid, naming those fields. A text with a null character is invalid. Otherwise the result is exactly the rows passing every given filter. |
| Filters.Truncate | backend/corpus/filters.py:20-27 | A decimal compared with the integer column becomes the integer next to it on the side of zero. |
| Filters.PassesIff | backend/corpus/filters.py:6-34 | A row passes exactly when each given filter holds. The two texts need a case-insensitive occurrence of the stripped value. The two choices need equality. The three number filters need a valid number, compared after truncation. |
| Filters.BlankTextParamIgnored | backend/corpus/filters.py:6-9 | A text parameter made only of whitespace gives the same result as leaving it out. |
| Filters.ChoiceFilterKeepsChoices | backend/corpus/filters.py:14-19 | With both choice filters given and valid, every row kept has exactly the requested part of speech and genre, and both are choices in their lists. |
| Filters.NoParamsKeepAll | backend/corpus/filters.py:29-34 | With no parameters, the queryset is returned unchanged. |
| Services.LogActivity | backend/corpus/services.py:130-143 | Online, exactly one log row is appended. A failed log write is swallowed and changes nothing. |
| Services.SearchEntries | backend/corpus/services.py:12-42 | Online, the result is the bumped matches and they are written back. Every matching row's counter goes up by one and no other row changes. Offline, the call raises and nothing changes. |
| Services.RaisedBy | backend/corpus/services.py:86-110 | Only an importable record raises. A null column raises an integrity error. A record that raises nothing has no null column and, as written, no nested data. |
| Services.ImportRecordAsWritten | backend/corpus/services.py:86-110 | Online, the body fails exactly when the record raises, with that exception. The entry row stays written unless a column was null. Offline, it fails and nothing changes. |
| Services.ImportLoop | backend/corpus/services.py:78-112 | The loop either creates one entry per importable record and counts them, or stops at the first record that raises. It then names the exception and leaves the partial writes. Offline, it stops at the first importable record. |
| Services.FirstRaisedAt | backend/corpus/services.py:81-110 | The exception of the import is that of the first record that raises. The records after it do not matter. |
| Services.ImportOutcome | backend/corpus/services.py:72-125 | Offline the import always fails. A failed import leaves every table as it was. A successful one adds as many entries as it reports. |
| Services.ImportFromJson | backend/corpus/services.py:72-125 | The import's result and final tables are exactly the import outcome, including the rollback of the atomic block. |
| Services.ImportedSpec | backend/corpus/services.py:81-84 | The imported records are exactly the records that have both required keys, in their original order. |
| Services.ImportDataOfClean | backend/corpus/services.py:87-94 | For a record that raises nothing, each column takes the record's value when its key is present, and the default otherwise. |
| Services.ImportDataDefaults | backend/corpus/services.py:87-94 | The k-th new entry row comes from the k-th importable record. Its texts are the record's, and each optional column is the record's value or `cultural`, `cultural`, `''` and `''`. Its counter is 0, it is active, and its key follows the existing ones. |
| Services.ImportSucceeds | backend/corpus/services.py:112-121 | Without nested data, the import returns the number of importable records. It leaves the nested tables alone and logs the count once. |
| Services.ImportCreatesEntries | backend/corpus/services.py:86-94 | Each imported record appends one entry with consecutive ids, and the existing entries are kept. |
| Services.ImportFailsIff | backend/corpus/services.py:72-125 | The import fails exactly when the database is unreachable or some record raises, whatever the records. Online, the exception is that of the first record that raises. A failed import changes nothing. |
| Services.TranslationListFails | backend/corpus/services.py:105 | A record whose translations are not an object makes the import fail with nothing changed, both as written and as intended. |
| Services.IntendedData | backend/corpus/services.py:105-110 | The translations of one record come from a dictionary, so their languages are distinct. |
| Services.ImportAllIntended | backend/corpus/services.py:96-110 | The intended import adds one entry per importable record and every example and translation row they carry, with keys advanced by as much. It leaves collocations and logs alone. |
| Services.ImportOutcomeIntended | backend/corpus/services.py:72-125 | As intended, a failed import leaves every table as it was, and a successful one adds as many entries as it reports. |
| Services.IntendedAppend | backend/corpus/services.py:81-110 | Importing a list in two parts gives the same tables as importing it at once. |
| Services.IntendedKeepsLinkedRows | backend/corpus/services.py:96-110 | The rows linked to an entry that existed before the import are unchanged. |
| Services.IntendedRowsOfRecord | backend/corpus/services.py:96-110 | The entry created for a record has exactly that record's examples and translations, with keys following those of the records before it. |
| Services.NestedFirstFails | backend/corpus/services.py:97-102 | As written, a leading record with nested data makes the whole import fail with no change. |
| Services.IntendedAgreesWithoutNested | backend/corpus/services.py:96-110 | Without nested data, the intended import and the import as written agree exactly. |
| Services.IntendedInsertsEntries | backend/corpus/services.py:81-112 | Without nested data, the intended import inserts exactly the imported entries. |
| Serializers.Create | backend/corpus/serializers.py:51-65 | With distinct languages, `create` writes the entry with its examples and translations. A repeated language fails after the rows before it are written. Offline, nothing changes. |
| Serializers.CreateLinksRows | backend/corpus/serializers.py:57-63 | After `create`, the new entry's examples and translations are exactly the given ones, and other entries' rows are untouched. |
| Serializers.Assign | backend/corpus/serializers.py:72-73 | `setattr` changes the one named field and keeps every other field and the read-only columns. |
| Serializers.PatchedSpec | backend/corpus/serializers.py:49 | Applying validated data sets each named field to its last assigned value and keeps the rest. It never changes `id`, `frequency` or `created_at`. |
| Serializers.ApplyItems | backend/corpus/serializers.py:71-73 | The `setattr` loop yields the patched instance. |
| Serializers.ReplaceRows | backend/corpus/serializers.py:76-86 | A list that is given replaces exactly the entry's rows of that kind. A list that is omitted keeps them. Other entries' rows are untouched. |
| Serializers.UpdatedTables | backend/corpus/serializers.py:67-88 | Update patches the one entry and replaces or keeps its nested rows. Collocations and logs are unchanged. |
| Serializers.ReplaceNested | backend/corpus/serializers.py:76-86 | The delete-and-recreate steps produce the replaced rows. A repeated language fails, with the rows before it written. |
| Serializers.Update | backend/corpus/serializers.py:67-88 | `update` produces the updated tables, or fails on a repeated language, or changes nothing offline. |
| Serializers.UpdateEntriesSpec | backend/corpus/serializers.py:71-74 | Update changes only the updated entry's row. |
| Serializers.UpdateExamplesReplaceOrKeep | backend/corpus/serializers.py:76-80 | After update, the entry's examples are the given list, or the old ones when none was given. Other entries' examples are unchanged. |
| Serializers.UpdateTranslationsReplaceOrKeep | backend/corpus/serializers.py:82-86 | The same holds for translations. |
| Analytics.Texts | backend/analytics/services.py:14-17 | The texts are the entries' isiZulu texts in order. |
| Analytics.Distinct | backend/analytics/services.py:21 | The distinct words have the same members as the word list, each once. |
| Analytics.MostCommonSpec | backend/analytics/services.py:23 | `most_common(n)` keeps exactly n items, or all of them when there are fewer, ordered by count, with no repeats. Anything left out counts no more than the last item kept. A large enough n keeps everything. |
| Analytics.WordsAreLower | backend/analytics/services.py:20 | Every word found is a non-empty run of word characters with no capital letter. |
| Analytics.TallySpec | backend/analytics/services.py:21 | The `Counter` holds each word of the list once, with its exact positive count. |
| Analytics.WordFrequency | backend/analytics/services.py:8-23 | At most `limit` pairs are returned, and no more than there are distinct words. |
| Analytics.MostCommonOfTally | backend/analytics/services.py:21-23 | Every kept word comes from the text with its exact count, and the kept words are distinct. |
| Analytics.WordFrequencySpec | backend/analytics/services.py:8-23 | Exactly `limit` lower-case words are returned, or every distinct word when there are fewer. They are distinct, each has its exact positive count, and they come by non-increasing count. |
| Analytics.WordFrequencyKeepsMostCommon | backend/analytics/services.py:23 | A word left out is no more frequent than the last word kept. A limit of at least the number of distinct words keeps every word. |
| Analytics.OccurrencesOfJoin | backend/analytics/services.py:14-21 | A word's count in the joined text is the sum of its counts in each entry's text. |
| Analytics.WordCountsPerEntry | backend/analytics/services.py:8-23 | Each reported count is the sum of that word's counts over the active entries. |
| Analytics.MaxFrequency | backend/analytics/services.py:35 | `Max('frequency')` is None exactly for no active entries. Otherwise it bounds every counter and is attained. |
| Analytics.LowerTokensCount | backend/analytics/services.py:39-44 | The lower-cased token list is as long as the total word count. |
| Analytics.LowerTokensMembers | backend/analytics/services.py:41-44 | A word is among the lower-cased tokens exactly when it is a lower-cased token of some entry. |
| Analytics.CorpusStatistics | backend/analytics/services.py:26-52 | The entry count is at most the row count. There is a highest frequency exactly when some entry is active, and it bounds every active counter. There are never more unique words than words. |
| Analytics.GenreTalliesBounded | backend/analytics/services.py:28-33 | The four genre counts sum to at most the number of active entries. |
| Analytics.UsageStatistics | backend/analytics/services.py:55-68 | Recent activities are exactly the searches plus the views, and never more than the log rows. |
| Views.BeforeComma | backend/corpus/views.py:161 | `split(',')[0]` is the longest prefix with no comma. |
| Views.GetClientIp | backend/corpus/views.py:157-164 | A non-empty forwarded header gives its first comma-separated part. Otherwise the address is `REMOTE_ADDR`, which may be missing. |
| Views.Paginate | backend/corpus/views.py:86-90 | With no page size there is no page. Page 1 always exists. A page past the end, or below 1, is invalid. A page holds at most the page size of consecutive results. |
| Views.SearchOutcome | backend/corpus/views.py:71-108 | A search answers 200 or the server error. It keeps every entry row and key and changes no nested table. |
| Views.SearchView | backend/corpus/views.py:71-108 | The search action's response and final tables are exactly the search outcome. |
| Views.SearchLogsOnlyUnpaginated | backend/corpus/views.py:86-100 | A search writes one log row naming the query, user and client address, and only when the database is up and the response is not paginated. |
| Views.SearchResponseSpec | backend/corpus/views.py:84-108 | A search answers 500 exactly when the database is unreachable or the page number is out of range. An unreachable database gives 500 even when no row would match. Unpaginated, it lists exactly the matching rows, with raised counters. |
| Views.ImportDataView | backend/corpus/views.py:110-138 | The import action's response and final tables are exactly the import outcome. |
| Views.ImportViewOutcome | backend/corpus/views.py:110-138 | The import action answers 200, the import failure or the not-a-list rejection. Any answer other than 200 leaves the tables unchanged. |
| Views.ImportViewSpec | backend/corpus/views.py:115-138 | A payload that is not a list gets 400 and no change. A list gets 200 with the number of importable records, or 500 with no change. The 500 comes exactly when the database is unreachable or some record raises, even for an empty list. |
| Views.PerformCreate | backend/corpus/views.py:42-49 | As written, the entry is created, then the hook raises before logging. On a repeated language it fails with `IntegrityError`, keeping the rows written before the repeat. |
| Views.PerformCreateIntended | backend/corpus/views.py:42-49 | The intended hook creates the entry and logs one `create` row naming it, with the client address. On a repeated language it fails with `IntegrityError` and logs nothing, keeping the rows written before the repeat. |
| Views.PerformUpdate | backend/corpus/views.py:51-58 | As written, the update is saved, then the hook raises before logging. On a repeated language it fails with `IntegrityError`, keeping the rows written before the repeat. |
| Views.PerformUpdateIntended | backend/corpus/views.py:51-58 | The intended hook saves the update and logs one `update` row. On a repeated language it fails with `IntegrityError` and logs nothing, keeping the rows written before the repeat. |
| Views.SearchText | backend/corpus/views.py:21-23 | The `search` parameter loses its null characters and commas. A parameter with neither is kept as it is. |
| Views.FindObject | backend/corpus/views.py:19-23 | The lookup finds a row with the key that is active, passes the filter set and matches every search term, or no row with the key does all three. |
| Views.NoQuerySeesActive | backend/corpus/views.py:19-23 | Without filter or search parameters, exactly the active rows are visible. |
| Views.SoftDeleted | backend/corpus/views.py:62-63 | A soft delete keeps the tables well formed. |
| Views.DestroyOutcome | backend/corpus/views.py:19-69 | Destroy, as written, never succeeds. It fails with a 400 naming the invalid fields exactly when a filter parameter is invalid. Unless the failure is the missing argument, nothing changes. The entry count, the nested tables and the logs are always kept. |
| Views.DestroyFollowsQuery | backend/corpus/views.py:19-69 | An invalid parameter gives a 400 with no change. Online, a key whose rows the filters leave out gives a 404 with no change. Any change is the soft delete of a visible row with the key. |
| Views.DestroyFilteredOut | backend/corpus/views.py:21-69 | `?genre=song` on a proverb gives a 404 with no change. `?min_frequency=abc` gives a 400 naming `min_frequency`, offline too. |
| Views.PerformDestroy | backend/corpus/views.py:60-69 | The destroy hook, as written, gives exactly the destroy outcome. |
| Views.PerformDestroyIntended | backend/corpus/views.py:60-69 | The intended destroy hook gives exactly the intended outcome. |
| Views.DestroyIsSoftDelete | backend/corpus/views.py:60-69 | Destroy clears only the active flag of the one row it found. The row leaves the active queryset, and a second lookup finds nothing, whatever its query string. Nested rows and logs are unchanged, and the hook fails before logging. |
| Views.DestroyIntendedLogs | backend/corpus/views.py:64-69 | The intended destroy makes the same change to the entries and adds exactly one `delete` row naming the entry. |

## Left out

- The URL configuration, `apps.py` and the admin registrations. They hold no behaviour of the core.
- `backend/analytics/views.py` (including its `int()` of the `limit` parameter). The limit is a parameter of `Analytics.WordFrequency`.
- Floating-point averages: `avg_frequency`, `average_word_length`, and `StatisticsService.get_basic_stats` (services.py:145-160). The integer counts of `get_corpus_statistics` are modelled.
- Full Unicode semantics of `\w`, of `str.lower()` and of case-insensitive matching. The model is ASCII-only, as stated above.
- Logger output. It is a side effect with no effect on results.
- HTTP and REST framework plumbing: authentication and permissions, routing, serializer output formats, `get_serializer_class`, and `prefetch_related`. These change nothing in the stored data.
- The `search` splitting of later REST framework releases, which keeps quoted phrases together and rejects a null character. The model splits as described under "Detail lookups".
- Views.PerformUpdate: starts from the row `get_object` found. The `update` action's lookup is the same `Views.FindObject` as destroy's, and it is not modelled a second time.
- The pagination settings. `backend/corpus/pagination.py` is not part of this model, so the page size and page number are parameters of `Views.SearchView`.
- Project settings are not part of this model. In particular, whether requests are wrapped in a transaction is not known: writes made before a view raises are modelled as kept.
- `export_data` (views.py:140-155). It is a read of the active queryset plus one log row, like the unpaginated search.
- List elements of an import payload that are not JSON objects, and list elements of `examples` that are not objects. Every such element is modelled as an object of string keys.
- Import values that are numbers, booleans, lists or objects where a text column is expected, and null values inside example items or translation values. Scalar values are modelled as strings or null.
- The text syntax of decimal parameters and values outside the 64-bit range the database accepts. Number parameters are modelled as already parsed.
- Canonicalisation of IPv6 addresses by `GenericIPAddressField`. Addresses other than the blank one are stored as given.
- The standard list, retrieve and partial-update actions of the viewset. Only what the core adds to them is modelled: the active queryset, the filter set and the three hooks.
- Analytics.MostCommonSpec: does not state which of several equally frequent words comes first. `Counter.most_common` keeps first-occurrence order among ties, and the model's stable sort keeps that order too, but no contract states it.
- Timestamps. `created_at` and `updated_at` are the ticks of a creation counter, not a clock, and `updated_at` is not modelled.
- Model validation on save. `Models.ValidEntry` states the field rules, but the ORM's `create` does not run them, so the writes do not check them.
- The seed command's records are not encoded as values. They are cited as the input that shows the import defect.

## Findings

| source | as written | input that shows it | evidently intended | confidence | as-written member | corrected member |
|---|---|---|---|---|---|---|
| backend/corpus/services.py:97-110 | The nested example and translation rows are created with `CulturalEntry.objects.create(entry=..., ...)`. The entry model has no `entry` field, so the call raises and the atomic block rolls back the whole import. | Either record of backend/corpus/management/commands/seed_data.py:11-44: both carry `examples`. Any importable record with a non-empty `examples` or `additional_translations` does the same. | Create the rows with `UsageExample` and `AdditionalTranslation`. Then each importable record gives its entry, its examples and its translations. | high, not executed | Services.NestedFirstFails, Services.ImportFailsIff | Services.ImportAllIntended, Services.IntendedAgreesWithoutNested |
| backend/corpus/views.py:48, 57, 68 | `perform_create`, `perform_update` and `perform_destroy` call `self.get_client_ip()` without the `request` argument it requires (views.py:157). The resulting `TypeError` comes after the row is saved and before the log row is written, so every create, update and delete answers with a server error and is never logged. | Any authenticated delete of an active entry: the entry is soft-deleted, no `delete` row is logged, and the hook raises. | Pass `self.request`. Then each hook saves and logs one row naming the entry, the user and the client address. | high, not executed | Views.DestroyIsSoftDelete, Views.PerformDestroy, Views.PerformCreate, Views.PerformUpdate | Views.DestroyIntendedLogs, Views.PerformDestroyIntended, Views.PerformCreateIntended, Views.PerformUpdateIntended |
