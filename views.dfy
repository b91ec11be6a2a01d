/** `CulturalEntryViewSet`: the decisions the entry views take around the
    services: which rows the viewset sees, the client address it records,
    the search and import endpoints, and the create, update and destroy
    hooks. A view's result is a status code and a body; an exception that
    escapes a view is a server error. */
module Views {
  import opened Wrappers
  import opened Text
  import opened Seqs
  import opened Models
  import opened Search
  import opened Store
  import opened Services
  import opened Serializers
  import Filters

  // ---------------------------------------------------------------------
  // get_client_ip

  /** The two `request.META` keys the view reads; a missing key is `None`. */
  datatype RequestMeta = RequestMeta(forwardedFor: Option<string>, remoteAddr: Option<string>)

  /** `s.split(',')[0]`: the longest prefix of `s` without a comma. */
  function BeforeComma(s: string): (r: string)
    ensures r <= s
    ensures ',' !in r
    ensures |r| == |s| || s[|r|] == ','
  {
    if s == [] then []
    else if s[0] == ',' then []
    else
      var rest := BeforeComma(s[1..]);
      assert [s[0]] + rest <= [s[0]] + s[1..];
      assert [s[0]] + s[1..] == s;
      [s[0]] + rest
  }

  /** `get_client_ip`: with a non-empty `X-Forwarded-For` header, its text up
      to the first comma, spaces kept; otherwise `REMOTE_ADDR`. */
  function GetClientIp(meta: RequestMeta): (ip: Option<string>)
    ensures meta.forwardedFor.Some? && meta.forwardedFor.value != "" ==>
      var h := meta.forwardedFor.value;
      ip.Some? && ip.value <= h && ',' !in ip.value && (|ip.value| == |h| || h[|ip.value|] == ',')
    ensures !(meta.forwardedFor.Some? && meta.forwardedFor.value != "") ==> ip == meta.remoteAddr
  {
    if meta.forwardedFor.Some? && meta.forwardedFor.value != "" then Some(BeforeComma(meta.forwardedFor.value))
    else meta.remoteAddr
  }

  // ---------------------------------------------------------------------
  // Responses

  /** The response bodies the views build. */
  datatype Body =
    | EntryList(entries: seq<CulturalEntry>)
    | PageBody(count: nat, entries: seq<CulturalEntry>)
    | ImportBody(message: string, importedCount: nat)
    | ErrorBody(error: string)

  datatype Response = Response(status: nat, body: Body)

  const SearchFailed := Response(500, ErrorBody("Search failed"))
  const ImportFailed := Response(500, ErrorBody("Import failed"))
  const NotAListRejected := Response(400, ErrorBody("Data must be a list of entries"))

  // ---------------------------------------------------------------------
  // search

  /** The query parameters of a search request, the requesting user (`None`
      when anonymous) and the request's address headers. */
  datatype SearchRequest = SearchRequest(
    q: Option<string>,
    partOfSpeech: Option<string>,
    genre: Option<string>,
    language: Option<string>,
    user: Option<nat>,
    meta: RequestMeta)

  function SearchQuery(req: SearchRequest): string {
    req.q.GetOr("")
  }

  /** The `filters` dictionary the view builds: it always has its four keys,
      so the service always applies it. */
  function SearchFiltersOf(req: SearchRequest): SearchFilters {
    SearchFilters(req.partOfSpeech, req.genre, req.language, Some(SearchQuery(req)))
  }

  /** What `paginate_queryset` yields: no page when no page size applies, a
      page, or the `NotFound` raised for a page number out of range. */
  datatype PageResult = NoPage | PageItems(items: seq<CulturalEntry>) | InvalidPage

  /** Page-number pagination over `results`: a page size of zero switches it
      off; page 1 always exists, and page `n` exists when it starts inside
      the results. */
  function Paginate(results: seq<CulturalEntry>, pageSize: nat, number: int): (r: PageResult)
    ensures r.NoPage? <==> pageSize == 0
    ensures r.InvalidPage? <==> pageSize > 0 && (number < 1 || (number > 1 && (number - 1) * pageSize >= |results|))
    ensures r.PageItems? ==>
      && number >= 1 && (number - 1) * pageSize + |r.items| <= |results|
      && |r.items| <= pageSize
      && (|results| > 0 ==> |r.items| > 0)
      && forall k :: 0 <= k < |r.items| ==> r.items[k] == results[(number - 1) * pageSize + k]
  {
    if pageSize == 0 then NoPage
    else if number < 1 || (number > 1 && (number - 1) * pageSize >= |results|) then InvalidPage
    else
      var start := (number - 1) * pageSize;
      var end := if start + pageSize < |results| then start + pageSize else |results|;
      PageItems(results[start..end])
  }

  /** The `search` action: the service call, then either a page (nothing
      logged) or the whole result list with one `search` log row. Any
      exception, including the service's own and a page out of range, is
      answered with a server error; the frequency write-back of a search
      that got that far stays. */
  function SearchOutcome(t: Tables, online: bool, req: SearchRequest, pageSize: nat, number: int)
    : (out: (Response, Tables))
    ensures out.0.status == 200 || out.0 == SearchFailed
    ensures |out.1.entries| == |t.entries|
    ensures forall i :: 0 <= i < |t.entries| ==> out.1.entries[i].id == t.entries[i].id
    ensures out.1.examples == t.examples && out.1.translations == t.translations && out.1.collocations == t.collocations
  {
    if !online then (SearchFailed, t)
    else
      var query := SearchQuery(req);
      var results := Bump(SearchResults(t.entries, t.examples, query, Some(SearchFiltersOf(req))));
      var written := WriteFrequencies(t, results);
      match Paginate(results, pageSize, number)
      case PageItems(items) => (Response(200, PageBody(|results|, items)), written)
      case InvalidPage => (SearchFailed, written)
      case NoPage =>
        (Response(200, EntryList(results)),
         InsertLog(written, req.user, "search", "Searched for: " + query, GetClientIp(req.meta)))
  }

  method SearchView(db: Database, req: SearchRequest, pageSize: nat, number: int) returns (resp: Response)
    requires db.Valid()
    modifies db
    ensures db.Valid() && db.online == old(db.online)
    ensures (resp, db.tables) == SearchOutcome(old(db.tables), old(db.online), req, pageSize, number)
  {
    var query := SearchQuery(req);
    var found := SearchEntries(db, query, Some(SearchFiltersOf(req)));
    if found.Failure? {
      return SearchFailed;
    }
    var results := found.value;
    var page := Paginate(results, pageSize, number);
    if page.PageItems? {
      return Response(200, PageBody(|results|, page.items));
    }
    if page.InvalidPage? {
      return SearchFailed;
    }
    LogActivity(db, req.user, "search", "Searched for: " + query, GetClientIp(req.meta));
    resp := Response(200, EntryList(results));
  }

  /** A search writes a log row only on the unpaginated path, and that row
      names the query, the user and the client address; a paginated or
      failed search logs nothing. */
  lemma SearchLogsOnlyUnpaginated(t: Tables, online: bool, req: SearchRequest, pageSize: nat, number: int)
    ensures var out := SearchOutcome(t, online, req, pageSize, number);
      out.1.logs == t.logs +
        if online && pageSize == 0 then
          [ActivityLog(t.nextLogId, req.user, "search", "Searched for: " + SearchQuery(req), StoredIp(GetClientIp(req.meta)), t.clock)]
        else []
  {
  }

  /** The bumped copies of some rows are the rows, each with its counter
      raised by one. */
  lemma BumpMembers(res: seq<CulturalEntry>, e: CulturalEntry)
    ensures e in Bump(res) <==> exists x :: x in res && e == x.(frequency := x.frequency + 1)
  {
    if e in Bump(res) {
      var k :| 0 <= k < |res| && Bump(res)[k] == e;
      assert res[k] in res;
    }
    if exists x :: x in res && e == x.(frequency := x.frequency + 1) {
      var x :| x in res && e == x.(frequency := x.frequency + 1);
      var k :| 0 <= k < |res| && res[k] == x;
      assert Bump(res)[k] == e;
    }
  }

  /** A search answers 500 exactly when the database fails or the page
      number is out of range; unpaginated, it lists every matching row of
      the table, and nothing else, with its counter raised by one. */
  lemma SearchResponseSpec(t: Tables, online: bool, req: SearchRequest, pageSize: nat, number: int)
    requires WellFormed(t)
    ensures var out, matches := SearchOutcome(t, online, req, pageSize, number),
                                SearchResults(t.entries, t.examples, SearchQuery(req), Some(SearchFiltersOf(req)));
      && (out.0.status == 500 <==>
            !online || (pageSize > 0 && (number < 1 || (number > 1 && (number - 1) * pageSize >= |matches|))))
      && (online && pageSize == 0 ==>
            out.0.body.EntryList? &&
            forall e :: e in out.0.body.entries <==>
              exists x :: x in t.entries && Matches(x, t.examples, SearchQuery(req), Some(SearchFiltersOf(req))) &&
                e == x.(frequency := x.frequency + 1))
  {
    var query, filters := SearchQuery(req), Some(SearchFiltersOf(req));
    var res := SearchResults(t.entries, t.examples, query, filters);
    if online && pageSize == 0 {
      SearchResultsSpec(t.entries, t.examples, query, filters);
      forall e ensures e in Bump(res) <==>
        exists x :: x in t.entries && Matches(x, t.examples, query, filters) && e == x.(frequency := x.frequency + 1)
      {
        BumpMembers(res, e);
      }
    }
  }

  // ---------------------------------------------------------------------
  // import_data

  /** The body of an import request: a JSON list of objects, or anything else. */
  datatype Payload = JsonList(records: seq<ImportRecord>) | NotAList

  function ImportResponse(r: Result<nat, ServiceError>): Response {
    match r
    case Success(n) => Response(200, ImportBody("Successfully imported " + NatToString(n) + " entries", n))
    case Failure(_) => ImportFailed
  }

  /** The `import_data` action, over the import as written. */
  function ImportViewOutcome(t: Tables, online: bool, payload: Payload, user: Option<nat>): (out: (Response, Tables))
    ensures out.0.status == 200 || out.0 == ImportFailed || out.0 == NotAListRejected
    ensures out.0.status != 200 ==> out.1 == t
  {
    match payload
    case NotAList => (NotAListRejected, t)
    case JsonList(records) =>
      var out := ImportOutcome(t, online, records, user);
      (ImportResponse(out.0), out.1)
  }

  method ImportDataView(db: Database, payload: Payload, user: Option<nat>) returns (resp: Response)
    requires db.Valid()
    modifies db
    ensures db.Valid() && db.online == old(db.online)
    ensures (resp, db.tables) == ImportViewOutcome(old(db.tables), old(db.online), payload, user)
  {
    if payload.NotAList? {
      return NotAListRejected;
    }
    var imported := ImportFromJson(db, payload.records, user);
    resp := ImportResponse(imported);
  }

  /** A payload that is not a list is answered 400 and imports nothing. A
      list is answered 200 with the number of importable records, or 500
      with every table as before; the 500 comes exactly when the database
      is unreachable or some record raises. */
  lemma ImportViewSpec(t: Tables, online: bool, payload: Payload, user: Option<nat>)
    requires WellFormed(t)
    ensures var out := ImportViewOutcome(t, online, payload, user);
      && (payload.NotAList? ==> out == (NotAListRejected, t))
      && (payload.JsonList? ==>
            && (out.0.status == 200 || out.0 == ImportFailed)
            && (out.0 == ImportFailed ==> out.1 == t)
            && (out.0.status == 200 ==> out.0.body.importedCount == |Imported(payload.records)|)
            && (online && !NoneRaise(payload.records, true) ==> out == (ImportFailed, t))
            && (out == (ImportFailed, t) <==> !online || !NoneRaise(payload.records, true)))
  {
    if payload.JsonList? {
      ImportFailsIff(t, online, payload.records, user);
      ImportedEmptyIff(payload.records);
      ImportedSpec(payload.records);
      if online && NoneRaise(payload.records, true) {
        ImportSucceeds(t, payload.records, user);
      }
    }
  }

  // ---------------------------------------------------------------------
  // perform_create, perform_update, perform_destroy

  /** What escapes one of the three hooks. `ClientIpArgumentMissing` is the
      `TypeError` of calling `get_client_ip` without its `request` argument,
      raised after the row has been saved and before anything is logged.
      `InvalidQuery` is the 400 of the filter set naming its invalid
      parameters. */
  datatype ViewError =
    | NotFound | DbFailed(cause: DbError) | ClientIpArgumentMissing
    | InvalidQuery(fields: seq<Filters.FilterField>)

  /** `perform_create` as written: the serializer saves the entry and its
      nested rows, then the hook raises before logging. */
  method PerformCreate(db: Database, d: EntryData) returns (r: Result<CulturalEntry, ViewError>)
    requires db.Valid()
    modifies db
    ensures db.Valid() && db.online == old(db.online)
    ensures db.tables.logs == old(db.tables).logs
    ensures !old(db.online) ==> r == Failure(DbFailed(Unavailable)) && db.tables == old(db.tables)
    ensures old(db.online) && DistinctLanguages(d.translations) ==>
      r == Failure(ClientIpArgumentMissing) && db.tables == InsertEntryWithRows(old(db.tables), d)
    ensures old(db.online) && !DistinctLanguages(d.translations) ==>
      r == Failure(DbFailed(IntegrityError)) &&
      exists k :: 0 <= k < |d.translations| && DistinctLanguages(d.translations[..k]) &&
        LanguageIn(d.translations[k].language, d.translations[..k]) &&
        db.tables == InsertEntryWithRows(old(db.tables), d.(translations := d.translations[..k]))
  {
    var saved := Create(db, d);
    if saved.Failure? {
      return Failure(DbFailed(saved.error));
    }
    r := Failure(ClientIpArgumentMissing);
  }

  /** `perform_create` as evidently intended: the entry is saved and one
      `create` row records it with the client address. */
  method PerformCreateIntended(db: Database, d: EntryData, user: nat, meta: RequestMeta)
    returns (r: Result<CulturalEntry, ViewError>)
    requires db.Valid()
    modifies db
    ensures db.Valid() && db.online == old(db.online)
    ensures !old(db.online) ==> r == Failure(DbFailed(Unavailable)) && db.tables == old(db.tables)
    ensures old(db.online) && DistinctLanguages(d.translations) ==>
      var e := NewEntry(old(db.tables).nextEntryId, old(db.tables).clock, d);
      r == Success(e) &&
      db.tables == InsertLog(InsertEntryWithRows(old(db.tables), d), Some(user), "create",
                             "Created entry: " + e.isiZuluText, GetClientIp(meta))
    ensures old(db.online) && !DistinctLanguages(d.translations) ==>
      r == Failure(DbFailed(IntegrityError)) && db.tables.logs == old(db.tables).logs &&
      exists k :: 0 <= k < |d.translations| && DistinctLanguages(d.translations[..k]) &&
        LanguageIn(d.translations[k].language, d.translations[..k]) &&
        db.tables == InsertEntryWithRows(old(db.tables), d.(translations := d.translations[..k]))
  {
    var saved := Create(db, d);
    if saved.Failure? {
      return Failure(DbFailed(saved.error));
    }
    LogActivity(db, Some(user), "create", "Created entry: " + saved.value.isiZuluText, GetClientIp(meta));
    r := Success(saved.value);
  }

  /** `perform_update` as written: the serializer writes the row and the
      supplied nested lists, then the hook raises before logging. */
  method PerformUpdate(db: Database, i: nat, items: ValidatedItems, examples: Option<seq<ExampleData>>,
                       translations: Option<seq<TranslationData>>) returns (r: Result<CulturalEntry, ViewError>)
    requires db.Valid() && i < |db.tables.entries|
    modifies db
    ensures db.Valid() && db.online == old(db.online)
    ensures db.tables.logs == old(db.tables).logs
    ensures !old(db.online) ==> r == Failure(DbFailed(Unavailable)) && db.tables == old(db.tables)
    ensures old(db.online) && (translations.Some? ==> DistinctLanguages(translations.value)) ==>
      r == Failure(ClientIpArgumentMissing) &&
      db.tables == UpdatedTables(old(db.tables), i, items, examples, translations)
    ensures old(db.online) && translations.Some? && !DistinctLanguages(translations.value) ==>
      r == Failure(DbFailed(IntegrityError)) &&
      exists k :: 0 <= k < |translations.value| && DistinctLanguages(translations.value[..k]) &&
        LanguageIn(translations.value[k].language, translations.value[..k]) &&
        db.tables == UpdatedTables(old(db.tables), i, items, examples, Some(translations.value[..k]))
  {
    var saved := Update(db, i, items, examples, translations);
    if saved.Failure? {
      return Failure(DbFailed(saved.error));
    }
    r := Failure(ClientIpArgumentMissing);
  }

  /** `perform_update` as evidently intended: the update is written and one
      `update` row records it with the client address. */
  method PerformUpdateIntended(db: Database, i: nat, items: ValidatedItems, examples: Option<seq<ExampleData>>,
                               translations: Option<seq<TranslationData>>, user: nat, meta: RequestMeta)
    returns (r: Result<CulturalEntry, ViewError>)
    requires db.Valid() && i < |db.tables.entries|
    modifies db
    ensures db.Valid() && db.online == old(db.online)
    ensures !old(db.online) ==> r == Failure(DbFailed(Unavailable)) && db.tables == old(db.tables)
    ensures old(db.online) && (translations.Some? ==> DistinctLanguages(translations.value)) ==>
      var e := Patched(old(db.tables).entries[i], items);
      r == Success(e) &&
      db.tables == InsertLog(UpdatedTables(old(db.tables), i, items, examples, translations), Some(user), "update",
                             "Updated entry: " + e.isiZuluText, GetClientIp(meta))
    ensures old(db.online) && translations.Some? && !DistinctLanguages(translations.value) ==>
      r == Failure(DbFailed(IntegrityError)) && db.tables.logs == old(db.tables).logs &&
      exists k :: 0 <= k < |translations.value| && DistinctLanguages(translations.value[..k]) &&
        LanguageIn(translations.value[k].language, translations.value[..k]) &&
        db.tables == UpdatedTables(old(db.tables), i, items, examples, Some(translations.value[..k]))
  {
    var saved := Update(db, i, items, examples, translations);
    if saved.Failure? {
      return Failure(DbFailed(saved.error));
    }
    LogActivity(db, Some(user), "update", "Updated entry: " + saved.value.isiZuluText, GetClientIp(meta));
    r := Success(saved.value);
  }

  // ---------------------------------------------------------------------
  // get_object

  /** The query string of a detail request as the filter backends read it:
      the filter-set parameters and `SearchFilter`'s `search` parameter,
      `''` when absent. `OrderingFilter` only orders the rows, so its
      parameter plays no part in a lookup. */
  datatype DetailQuery = DetailQuery(params: Filters.FilterParams, search: string)

  /** The `search` parameter with its null characters dropped and its commas
      read as spaces. */
  function SearchText(s: string): (r: string)
    ensures |r| <= |s| && '\0' !in r && ',' !in r
    ensures '\0' !in s && ',' !in s ==> r == s
  {
    if s == [] then []
    else (if s[0] == '\0' then [] else if s[0] == ',' then [' '] else [s[0]]) + SearchText(s[1..])
  }

  /** The terms `SearchFilter` looks for. */
  function SearchTerms(search: string): seq<string> {
    Split(SearchText(search))
  }

  /** `SearchFilter` over `search_fields`: every term occurs, ignoring case,
      in the isiZulu text, the English translation or the cultural context. */
  predicate SearchMatches(e: CulturalEntry, terms: seq<string>) {
    forall k :: 0 <= k < |terms| ==>
      IContains(e.isiZuluText, terms[k]) || IContains(e.englishTranslation, terms[k])
      || IContains(e.culturalContext, terms[k])
  }

  /** A row of the viewset's queryset once the filter backends have run:
      active, passing the filter set and matching every search term. */
  predicate Visible(e: CulturalEntry, q: DetailQuery) {
    e.isActive && Filters.Passes(e, q.params) && SearchMatches(e, SearchTerms(q.search))
  }

  /** The primary-key lookup of `get_object` in the filtered queryset: the
      position of a visible row with key `id`, or none. */
  function FindObject(entries: seq<CulturalEntry>, q: DetailQuery, id: nat): (r: Option<nat>)
    ensures r.Some? ==> r.value < |entries| && entries[r.value].id == id && Visible(entries[r.value], q)
    ensures r.None? ==> forall i :: 0 <= i < |entries| && entries[i].id == id ==> !Visible(entries[i], q)
  {
    if entries == [] then None
    else
      var last := |entries| - 1;
      if entries[last].id == id && Visible(entries[last], q) then Some(last)
      else FindObject(entries[..last], q, id)
  }

  /** A request without filter or search parameters sees exactly the active
      rows, so its lookup finds the active row with the key. */
  lemma NoQuerySeesActive(e: CulturalEntry)
    ensures Visible(e, DetailQuery(Filters.NoParams, "")) <==> e.isActive
  {
    assert SearchText("") == [];
    assert Split([]) == [];
  }

  /** The soft delete shared by both versions of `perform_destroy`. */
  function SoftDeleted(t: Tables, i: nat): (r: Tables)
    requires i < |t.entries|
    ensures WellFormed(t) ==> WellFormed(r)
  {
    SaveEntry(t, i, t.entries[i].(isActive := false))
  }

  /** `destroy` with `perform_destroy` as written. The filter set checks the
      query string before any query is sent, and an invalid parameter is a
      400. The row is then looked up in the filtered queryset, its flag is
      cleared and it is saved, and the hook raises before logging. */
  function DestroyOutcome(t: Tables, online: bool, q: DetailQuery, id: nat): (out: (Result<(), ViewError>, Tables))
    ensures out.0.Failure?
    ensures out.0 != Failure(ClientIpArgumentMissing) ==> out.1 == t
    ensures |out.1.entries| == |t.entries|
    ensures out.1.examples == t.examples && out.1.translations == t.translations && out.1.logs == t.logs
    ensures !Filters.AllValid(q.params) <==> out.0.Failure? && out.0.error.InvalidQuery?
    ensures out.0.Failure? && out.0.error.InvalidQuery? ==> out.0.error.fields == Filters.InvalidFields(q.params)
  {
    if !Filters.AllValid(q.params) then (Failure(InvalidQuery(Filters.InvalidFields(q.params))), t)
    else if !online then (Failure(DbFailed(Unavailable)), t)
    else match FindObject(t.entries, q, id)
      case None => (Failure(NotFound), t)
      case Some(i) => (Failure(ClientIpArgumentMissing), SoftDeleted(t, i))
  }

  /** `destroy` with `perform_destroy` as evidently intended: the soft delete
      followed by one `delete` log row. */
  function DestroyOutcomeIntended(t: Tables, online: bool, q: DetailQuery, id: nat, user: nat, meta: RequestMeta)
    : (Result<(), ViewError>, Tables)
  {
    if !Filters.AllValid(q.params) then (Failure(InvalidQuery(Filters.InvalidFields(q.params))), t)
    else if !online then (Failure(DbFailed(Unavailable)), t)
    else match FindObject(t.entries, q, id)
      case None => (Failure(NotFound), t)
      case Some(i) =>
        (Success(()), InsertLog(SoftDeleted(t, i), Some(user), "delete",
                                "Deleted entry: " + t.entries[i].isiZuluText, GetClientIp(meta)))
  }

  /** `DELETE` with `?genre=song` on a proverb: the filter set leaves the
      row out, so the answer is a 404 and nothing changes. With
      `?min_frequency=abc` instead, the answer is a 400 naming
      `min_frequency`, whether or not the database is reachable. */
  lemma DestroyFilteredOut(t: Tables, online: bool, id: nat)
    requires forall e :: e in t.entries && e.id == id ==> e.genre == "proverb"
    ensures var q := DetailQuery(Filters.NoParams.(genre := Some("song")), "");
      online ==> DestroyOutcome(t, online, q, id) == (Failure(NotFound), t)
    ensures var q := DetailQuery(Filters.NoParams.(minFrequency := Some(Filters.InvalidNumber)), "");
      var out := DestroyOutcome(t, online, q, id);
      out.1 == t && out.0.Failure? && out.0.error.InvalidQuery? && Filters.MinFrequencyField in out.0.error.fields
  {
    var q := DetailQuery(Filters.NoParams.(genre := Some("song")), "");
    assert "song" == GenreChoices[3];
    assert Filters.AllValid(q.params);
    DestroyFollowsQuery(t, online, q, id);
    var q2 := DetailQuery(Filters.NoParams.(minFrequency := Some(Filters.InvalidNumber)), "");
    assert !Filters.FieldOk(q2.params, Filters.MinFrequencyField);
  }

  /** The query string decides what destroy may touch: an invalid parameter
      is a 400 with no change, a row the filters leave out is a 404 with no
      change, and a change only ever comes from the visible row with the
      key. */
  lemma DestroyFollowsQuery(t: Tables, online: bool, q: DetailQuery, id: nat)
    ensures var out := DestroyOutcome(t, online, q, id);
      && (!Filters.AllValid(q.params) ==> out == (Failure(InvalidQuery(Filters.InvalidFields(q.params))), t))
      && (Filters.AllValid(q.params) && online && (forall e :: e in t.entries && e.id == id ==> !Visible(e, q)) ==>
            out == (Failure(NotFound), t))
      && (out.1 != t ==>
            exists i :: 0 <= i < |t.entries| && t.entries[i].id == id && Visible(t.entries[i], q)
                        && out.1 == SoftDeleted(t, i))
  {
    if Filters.AllValid(q.params) && online {
      var r := FindObject(t.entries, q, id);
      if r.Some? {
        assert t.entries[r.value] in t.entries;
      }
    }
  }

  method PerformDestroy(db: Database, q: DetailQuery, id: nat) returns (r: Result<(), ViewError>)
    requires db.Valid()
    modifies db
    ensures db.Valid() && db.online == old(db.online)
    ensures (r, db.tables) == DestroyOutcome(old(db.tables), old(db.online), q, id)
  {
    if !Filters.AllValid(q.params) {
      return Failure(InvalidQuery(Filters.InvalidFields(q.params)));
    }
    if !db.online {
      return Failure(DbFailed(Unavailable));
    }
    var found := FindObject(db.tables.entries, q, id);
    if found.None? {
      return Failure(NotFound);
    }
    var i := found.value;
    var instance := db.tables.entries[i];
    instance := instance.(isActive := false);
    var saved := db.Save(i, instance);
    r := Failure(ClientIpArgumentMissing);
  }

  method PerformDestroyIntended(db: Database, q: DetailQuery, id: nat, user: nat, meta: RequestMeta) returns (r: Result<(), ViewError>)
    requires db.Valid()
    modifies db
    ensures db.Valid() && db.online == old(db.online)
    ensures (r, db.tables) == DestroyOutcomeIntended(old(db.tables), old(db.online), q, id, user, meta)
  {
    if !Filters.AllValid(q.params) {
      return Failure(InvalidQuery(Filters.InvalidFields(q.params)));
    }
    if !db.online {
      return Failure(DbFailed(Unavailable));
    }
    var found := FindObject(db.tables.entries, q, id);
    if found.None? {
      return Failure(NotFound);
    }
    var i := found.value;
    var instance := db.tables.entries[i];
    instance := instance.(isActive := false);
    var saved := db.Save(i, instance);
    LogActivity(db, Some(user), "delete", "Deleted entry: " + instance.isiZuluText, GetClientIp(meta));
    r := Success(());
  }

  /** Destroy is a soft delete: the row stays stored with every field but
      `is_active` kept, it leaves the active queryset, a second destroy of
      the same key finds nothing, and no other row changes. As written, the
      hook then fails and no log row is written. */
  lemma DestroyIsSoftDelete(t: Tables, q: DetailQuery, id: nat)
    requires WellFormed(t) && Filters.AllValid(q.params)
    requires FindObject(t.entries, q, id).Some?
    ensures var i, out := FindObject(t.entries, q, id).value, DestroyOutcome(t, true, q, id);
      && |out.1.entries| == |t.entries|
      && out.1.entries[i] == t.entries[i].(isActive := false)
      && (forall j :: 0 <= j < |t.entries| && j != i ==> out.1.entries[j] == t.entries[j])
      && out.1.entries[i] !in ActiveEntries(out.1.entries)
      && (forall q' :: FindObject(out.1.entries, q', id) == None)
      && out.1.examples == t.examples && out.1.translations == t.translations
      && out.0 == Failure(ClientIpArgumentMissing) && out.1.logs == t.logs
  {
    var i := FindObject(t.entries, q, id).value;
    var r := DestroyOutcome(t, true, q, id).1;
    forall j | 0 <= j < |r.entries| && r.entries[j].id == id ensures !r.entries[j].isActive {
    }
  }

  /** The intended destroy performs the same soft delete and adds exactly
      one `delete` row naming the entry, the user and the client address. */
  lemma DestroyIntendedLogs(t: Tables, q: DetailQuery, id: nat, user: nat, meta: RequestMeta)
    requires Filters.AllValid(q.params)
    requires FindObject(t.entries, q, id).Some?
    ensures var i, out := FindObject(t.entries, q, id).value, DestroyOutcomeIntended(t, true, q, id, user, meta);
      && out.0 == Success(())
      && out.1.entries == DestroyOutcome(t, true, q, id).1.entries
      && out.1.logs == t.logs + [ActivityLog(t.nextLogId, Some(user), "delete",
                                             "Deleted entry: " + t.entries[i].isiZuluText, StoredIp(GetClientIp(meta)), t.clock)]
  {
  }
}
