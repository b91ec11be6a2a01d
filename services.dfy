/** `SearchService`, `DataImportService` and `ActivityLogService` of the
    corpus application, as operations on a `Database`. */
module Services {
  import opened Wrappers
  import opened Text
  import opened Seqs
  import opened Models
  import opened Search
  import opened Store
  import opened Serializers

  /** What a service raises: a database error; the `TypeError` of a model
      constructor called with keyword arguments the model does not have; the
      `TypeError` of a `for` loop over a value that cannot be iterated; the
      `AttributeError` of a dictionary method called on a value that is not a
      dictionary. */
  datatype ServiceError = DbFailure(cause: DbError) | UnexpectedKeyword | NotIterable | NoSuchMethod

  // ---------------------------------------------------------------------
  // ActivityLogService

  /** `log_activity`: writes one log row when it can and never raises; a
      failed write is only reported to the logger. */
  method LogActivity(db: Database, user: Option<nat>, action: string, description: string, ip: Option<string>)
    requires db.Valid()
    modifies db
    ensures db.Valid() && db.online == old(db.online)
    ensures db.tables == if old(db.online) then InsertLog(old(db.tables), user, action, description, ip) else old(db.tables)
  {
    var written := db.CreateLog(user, action, description, ip);
  }

  // ---------------------------------------------------------------------
  // SearchService

  /** `search_entries`: the matching rows, each fetched once, with their
      counters bumped in memory and written back. The rows returned are the
      bumped copies. Every matching row of the table gains exactly one, and
      nothing else in the database changes. */
  method SearchEntries(db: Database, query: string, filters: Option<SearchFilters>)
    returns (r: Result<seq<CulturalEntry>, DbError>)
    requires db.Valid()
    modifies db
    ensures db.Valid() && db.online == old(db.online)
    ensures !old(db.online) ==> r == Failure(Unavailable) && db.tables == old(db.tables)
    ensures old(db.online) ==>
      r == Success(Bump(SearchResults(old(db.tables).entries, old(db.tables).examples, query, filters))) &&
      db.tables == WriteFrequencies(old(db.tables), r.value)
    ensures |db.tables.entries| == |old(db.tables).entries|
    ensures forall i :: 0 <= i < |db.tables.entries| ==>
      db.tables.entries[i] == old(db.tables).entries[i].(frequency := old(db.tables).entries[i].frequency +
        if old(db.online) && Matches(old(db.tables).entries[i], old(db.tables).examples, query, filters) then 1 else 0)
  {
    if !db.online {
      return Failure(Unavailable);
    }
    var results := SearchResults(db.tables.entries, db.tables.examples, query, filters);
    var cache := new CulturalEntry[|results|](k requires 0 <= k < |results| => results[k]);
    assert cache[..] == results;
    UpdateFrequencies(cache);
    var written := db.BulkUpdate(cache[..]);
    SearchBumpsExactlyMatches(old(db.tables).entries, old(db.tables).examples, query, filters);
    r := Success(cache[..]);
  }

  // ---------------------------------------------------------------------
  // DataImportService

  /** The `examples` value of a record: a JSON list of objects (an absent key
      reads as the empty list); a value that cannot be iterated (null, a
      number, a boolean); or a string or an object, whose iteration yields
      `size` characters or keys. */
  datatype ExamplesValue =
    | ExampleList(items: seq<map<string, string>>)
    | ExamplesNotIterable
    | ExamplesOtherIterable(size: nat)

  /** The `additional_translations` value of a record: a JSON object as its
      key/value pairs in order (an absent key reads as the empty object), or
      any other value, which has no `.items()`. */
  datatype TranslationsValue = TranslationObject(pairs: JsonPairs) | TranslationsNotObject

  /** One element of the imported JSON list: its scalar values by key, `None`
      standing for JSON null, and its two nested values. */
  datatype ImportRecord = ImportRecord(
    fields: map<string, Option<string>>,
    examples: ExamplesValue,
    additionalTranslations: TranslationsValue)

  /** A JSON object as its key/value pairs in order; its keys are distinct. */
  type JsonPairs = ps: seq<(string, string)> | forall i, j :: 0 <= i < j < |ps| ==> ps[i].0 != ps[j].0

  /** The keys the entry row is created from. */
  const ImportColumns: seq<string> :=
    ["isiZulu_text", "english_translation", "part_of_speech", "genre", "cultural_context", "source"]

  /** Both required keys are present. */
  predicate Importable(rec: ImportRecord) {
    "isiZulu_text" in rec.fields && "english_translation" in rec.fields
  }

  /** Some key the entry row is created from holds null, which its NOT NULL
      column refuses. */
  predicate NullColumn(rec: ImportRecord) {
    exists i :: 0 <= i < |ImportColumns| && ImportColumns[i] in rec.fields && rec.fields[ImportColumns[i]].None?
  }

  function ExampleItems(v: ExamplesValue): seq<map<string, string>> {
    if v.ExampleList? then v.items else []
  }

  function TranslationPairs(v: TranslationsValue): JsonPairs {
    if v.TranslationObject? then v.pairs else []
  }

  /** The record carries nested rows. */
  predicate HasNested(rec: ImportRecord) {
    ExampleItems(rec.examples) != [] || TranslationPairs(rec.additionalTranslations) != []
  }

  /** `dict.get(key, default)`. */
  function Get(m: map<string, string>, key: string, default: string): string {
    if key in m then m[key] else default
  }

  /** `dict.get(key, default)` on a scalar value. A null value reads as the
      default here only to keep the function total: a record with a null
      column raises before its row exists (`RaisedBy`). */
  function Column(m: map<string, Option<string>>, key: string, default: string): string {
    if key in m && m[key].Some? then m[key].value else default
  }

  /** The keyword arguments of the entry created for a record. */
  function ImportData(rec: ImportRecord): EntryData
    requires Importable(rec)
  {
    EntryData(Column(rec.fields, "isiZulu_text", ""), Column(rec.fields, "english_translation", ""),
              Column(rec.fields, "part_of_speech", "cultural"), Column(rec.fields, "genre", "cultural"),
              Column(rec.fields, "cultural_context", ""), Column(rec.fields, "source", ""), None, [], [])
  }

  /** The exception the loop body raises for `rec` with the database up, if
      any, in the order the body meets them: the entry insert (a null
      column), the iteration over `examples`, the first nested example, the
      `.items()` call on `additional_translations`, the first nested
      translation. With `defective`, a nested row is built with the entry
      model and raises; otherwise it is built with its own model and does not. */
  function RaisedBy(rec: ImportRecord, defective: bool): (r: Option<ServiceError>)
    ensures r.Some? ==> Importable(rec)
    ensures Importable(rec) && NullColumn(rec) ==> r == Some(DbFailure(IntegrityError))
    ensures r.None? && Importable(rec) ==> !NullColumn(rec) && (defective ==> !HasNested(rec))
  {
    if !Importable(rec) then None
    else if NullColumn(rec) then Some(DbFailure(IntegrityError))
    else match rec.examples
      case ExamplesNotIterable => Some(NotIterable)
      case ExamplesOtherIterable(n) =>
        if n > 0 then Some(NoSuchMethod) else TranslationsRaise(rec.additionalTranslations, defective)
      case ExampleList(items) =>
        if items != [] && defective then Some(UnexpectedKeyword)
        else TranslationsRaise(rec.additionalTranslations, defective)
  }

  function TranslationsRaise(v: TranslationsValue, defective: bool): Option<ServiceError> {
    match v
    case TranslationsNotObject => Some(NoSuchMethod)
    case TranslationObject(ps) => if ps != [] && defective then Some(UnexpectedKeyword) else None
  }

  predicate NoneRaise(records: seq<ImportRecord>, defective: bool) {
    forall k :: 0 <= k < |records| ==> RaisedBy(records[k], defective).None?
  }

  /** The exception of the first record that raises, if any. */
  function FirstRaised(records: seq<ImportRecord>, defective: bool): Option<ServiceError> {
    if records == [] then None
    else
      var before := FirstRaised(records[..|records| - 1], defective);
      if before.Some? then before else RaisedBy(records[|records| - 1], defective)
  }

  predicate AnyImportable(records: seq<ImportRecord>) {
    exists k :: 0 <= k < |records| && Importable(records[k])
  }

  /** The entry data of the importable records, in order. */
  function Imported(records: seq<ImportRecord>): (ds: seq<EntryData>)
    ensures |ds| <= |records|
  {
    if records == [] then []
    else
      var last := records[|records| - 1];
      Imported(records[..|records| - 1]) + if Importable(last) then [ImportData(last)] else []
  }

  /** The entry rows created from `ds`, with consecutive keys and ticks. */
  function EntryRows(ds: seq<EntryData>, firstId: nat, firstTick: nat): (r: seq<CulturalEntry>)
    ensures |r| == |ds|
    ensures forall k :: 0 <= k < |ds| ==> r[k] == NewEntry(firstId + k, firstTick + k, ds[k])
  {
    seq(|ds|, k requires 0 <= k < |ds| => NewEntry(firstId + k, firstTick + k, ds[k]))
  }

  /** Entry rows appended one after another. */
  function InsertEntries(t: Tables, ds: seq<EntryData>): (r: Tables)
    ensures ds == [] ==> r == t
    ensures WellFormed(t) ==> WellFormed(r)
  {
    assert ds == [] ==> t.entries + EntryRows(ds, t.nextEntryId, t.clock) == t.entries;
    t.(entries := t.entries + EntryRows(ds, t.nextEntryId, t.clock),
       nextEntryId := t.nextEntryId + |ds|, clock := t.clock + |ds|)
  }

  function ImportMessage(n: nat): string {
    "Imported " + NatToString(n) + " entries from JSON"
  }

  /** What `import_from_json` returns and leaves behind, as written. Online,
      the first record that raises ends the loop and the atomic block rolls
      back; otherwise every importable record becomes an entry and one log
      row records the count. Offline, entering the atomic block opens the
      connection and raises, whatever the records. */
  function ImportOutcome(t: Tables, online: bool, records: seq<ImportRecord>, user: Option<nat>)
    : (out: (Result<nat, ServiceError>, Tables))
    ensures out.0.Failure? ==> out.1 == t
    ensures out.0.Success? ==> |out.1.entries| == |t.entries| + out.0.value
  {
    if !online then (Failure(DbFailure(Unavailable)), t)
    else match FirstRaised(records, true)
      case Some(e) => (Failure(e), t)
      case None =>
        var ds := Imported(records);
        (Success(|ds|), InsertLog(InsertEntries(t, ds), user, "import", ImportMessage(|ds|), None))
  }

  lemma ImportedSnoc(records: seq<ImportRecord>, k: nat)
    requires k < |records|
    ensures Importable(records[k]) ==> Imported(records[..k + 1]) == Imported(records[..k]) + [ImportData(records[k])]
    ensures !Importable(records[k]) ==> Imported(records[..k + 1]) == Imported(records[..k])
  {
    assert records[..k + 1][..k] == records[..k];
    assert Imported(records[..k]) + [] == Imported(records[..k]);
  }

  lemma InsertEntriesSnoc(t: Tables, ds: seq<EntryData>, d: EntryData)
    ensures InsertEntries(t, ds + [d]) == InsertEntry(InsertEntries(t, ds), d)
  {
    assert EntryRows(ds + [d], t.nextEntryId, t.clock) ==
      EntryRows(ds, t.nextEntryId, t.clock) + [NewEntry(t.nextEntryId + |ds|, t.clock + |ds|, d)];
  }

  lemma {:induction false} ImportedEmptyIff(records: seq<ImportRecord>)
    ensures Imported(records) == [] <==> !AnyImportable(records)
  {
    if records != [] {
      var init := records[..|records| - 1];
      ImportedEmptyIff(init);
      assert forall k :: 0 <= k < |init| ==> init[k] == records[k];
    }
  }

  lemma NoneRaiseSnoc(records: seq<ImportRecord>, k: nat, defective: bool)
    requires k < |records|
    ensures NoneRaise(records[..k + 1], defective) <==>
      NoneRaise(records[..k], defective) && RaisedBy(records[k], defective).None?
  {
    var p := records[..k + 1];
    assert p[k] == records[k];
    assert forall j :: 0 <= j < k ==> p[j] == records[..k][j];
  }

  lemma NoneRaisePrefix(records: seq<ImportRecord>, j: nat, defective: bool)
    requires j <= |records| && NoneRaise(records, defective)
    ensures NoneRaise(records[..j], defective)
  {
    assert forall k :: 0 <= k < j ==> records[..j][k] == records[k];
  }

  lemma NoneRaiseSuffix(records: seq<ImportRecord>, j: nat, defective: bool)
    requires j <= |records| && NoneRaise(records, defective)
    ensures NoneRaise(records[j..], defective)
  {
    assert forall k :: 0 <= k < |records| - j ==> records[j..][k] == records[j + k];
  }

  /** No first raising record means no raising record at all. */
  lemma {:induction false} FirstRaisedNone(records: seq<ImportRecord>, defective: bool)
    ensures FirstRaised(records, defective).None? <==> NoneRaise(records, defective)
  {
    if records != [] {
      var k := |records| - 1;
      FirstRaisedNone(records[..k], defective);
      assert records[..k + 1] == records;
      NoneRaiseSnoc(records, k, defective);
    }
  }

  /** The first record that raises decides the exception; the records after
      it do not matter. */
  lemma {:induction false} FirstRaisedAt(records: seq<ImportRecord>, k: nat, defective: bool)
    requires k < |records| && NoneRaise(records[..k], defective) && RaisedBy(records[k], defective).Some?
    ensures FirstRaised(records, defective) == RaisedBy(records[k], defective)
  {
    var init := records[..|records| - 1];
    if |records| == k + 1 {
      assert init == records[..k];
      FirstRaisedNone(init, defective);
    } else {
      assert init[..k] == records[..k] && init[k] == records[k];
      FirstRaisedAt(init, k, defective);
    }
  }

  /** The exception a list raises is that of a record before which none raises. */
  lemma {:induction false} FirstRaisedWitness(records: seq<ImportRecord>, defective: bool)
    requires FirstRaised(records, defective).Some?
    ensures exists k :: (0 <= k < |records| && NoneRaise(records[..k], defective) &&
      FirstRaised(records, defective) == RaisedBy(records[k], defective))
  {
    var n := |records| - 1;
    var init := records[..n];
    if FirstRaised(init, defective).Some? {
      FirstRaisedWitness(init, defective);
      var k :| 0 <= k < n && NoneRaise(init[..k], defective) && FirstRaised(init, defective) == RaisedBy(init[k], defective);
      assert init[..k] == records[..k] && init[k] == records[k];
    } else {
      FirstRaisedNone(init, defective);
      assert NoneRaise(records[..n], defective);
    }
  }

  /** The loop body of `import_from_json` for a record with both required
      keys: the entry is created (the database refuses a null column), then
      the examples are iterated and the first one raises, then the
      translations' `.items()` is called and the first one raises. The
      partial write is left for the caller's rollback. */
  method ImportRecordAsWritten(db: Database, rec: ImportRecord) returns (r: Result<(), ServiceError>)
    requires db.Valid() && Importable(rec)
    modifies db
    ensures db.Valid() && db.online == old(db.online)
    ensures !old(db.online) ==> r == Failure(DbFailure(Unavailable)) && db.tables == old(db.tables)
    ensures old(db.online) ==> (r.Failure? <==> RaisedBy(rec, true).Some?) && (r.Failure? ==> Some(r.error) == RaisedBy(rec, true))
    ensures old(db.online) ==>
      db.tables == if NullColumn(rec) then old(db.tables) else InsertEntry(old(db.tables), ImportData(rec))
  {
    if NullColumn(rec) {
      return Failure(DbFailure(if db.online then IntegrityError else Unavailable));
    }
    var created := db.CreateEntry(ImportData(rec));
    if created.Failure? {
      return Failure(DbFailure(created.error));
    }
    match rec.examples {
      case ExamplesNotIterable =>
        return Failure(NotIterable);
      case ExamplesOtherIterable(n) =>
        if n > 0 {
          return Failure(NoSuchMethod);
        }
      case ExampleList(items) =>
        if items != [] {
          return Failure(UnexpectedKeyword);
        }
    }
    match rec.additionalTranslations {
      case TranslationsNotObject =>
        return Failure(NoSuchMethod);
      case TranslationObject(ps) =>
        if ps != [] {
          return Failure(UnexpectedKeyword);
        }
    }
    r := Success(());
  }

  /** Where the loop of `import_from_json` stops, at `records[k]` with `e`,
      leaving `t` behind: no earlier record raised; online, `records[k]`
      raised `e` after its entry row was written, unless a null column kept
      the row out; offline, `records[k]` was the first to reach the database. */
  ghost predicate Stopped(start: Tables, online: bool, records: seq<ImportRecord>, k: nat, e: ServiceError, t: Tables) {
    k < |records| && NoneRaise(records[..k], true) &&
    var before := InsertEntries(start, Imported(records[..k]));
    && (online ==>
          && Some(e) == RaisedBy(records[k], true)
          && t == if NullColumn(records[k]) then before else InsertEntry(before, ImportData(records[k])))
    && (!online ==> e == DbFailure(Unavailable) && Importable(records[k]) && t == start)
  }

  /** One pass of the loop of `import_from_json`, over `records[k]`, after
      the first `k` records have been imported from `start`. */
  method ImportStep(db: Database, ghost start: Tables, records: seq<ImportRecord>, k: nat, count: nat)
    returns (next: nat, raised: Option<ServiceError>)
    requires k < |records| && WellFormed(start)
    requires db.tables == InsertEntries(start, Imported(records[..k])) && count == |Imported(records[..k])|
    requires NoneRaise(records[..k], true) && (!db.online ==> count == 0)
    modifies db
    ensures db.Valid() && db.online == old(db.online)
    ensures raised.None? ==>
      && db.tables == InsertEntries(start, Imported(records[..k + 1]))
      && next == |Imported(records[..k + 1])|
      && NoneRaise(records[..k + 1], true)
      && (!db.online ==> next == 0)
    ensures raised.Some? ==> Stopped(start, db.online, records, k, raised.value, db.tables)
  {
    var rec := records[k];
    ImportedSnoc(records, k);
    NoneRaiseSnoc(records, k, true);
    next, raised := count, None;
    if Importable(rec) {
      InsertEntriesSnoc(start, Imported(records[..k]), ImportData(rec));
      var step := ImportRecordAsWritten(db, rec);
      if step.Failure? {
        return count, Some(step.error);
      }
      next := count + 1;
    }
  }

  /** The loop of `import_from_json`: the number of entries created, or the
      exception that ended it, with the partial writes left in place. */
  method ImportLoop(db: Database, records: seq<ImportRecord>) returns (count: nat, raised: Option<ServiceError>)
    requires db.Valid()
    modifies db
    ensures db.Valid() && db.online == old(db.online)
    ensures raised.None? ==>
      && NoneRaise(records, true)
      && (old(db.online) || !AnyImportable(records))
      && count == |Imported(records)|
      && db.tables == InsertEntries(old(db.tables), Imported(records))
    ensures raised.Some? ==>
      && (exists k :: Stopped(old(db.tables), old(db.online), records, k, raised.value, db.tables))
      && if old(db.online) then Some(raised.value) == FirstRaised(records, true)
         else raised.value == DbFailure(Unavailable) && AnyImportable(records)
  {
    count := 0;
    for k := 0 to |records|
      invariant db.online == old(db.online)
      invariant db.tables == InsertEntries(old(db.tables), Imported(records[..k]))
      invariant count == |Imported(records[..k])|
      invariant NoneRaise(records[..k], true)
      invariant !db.online ==> count == 0
    {
      var stop;
      count, stop := ImportStep(db, old(db.tables), records, k, count);
      if stop.Some? {
        assert Stopped(old(db.tables), old(db.online), records, k, stop.value, db.tables);
        if db.online {
          FirstRaisedAt(records, k, true);
        }
        return count, stop;
      }
    }
    assert records[..|records|] == records;
    ImportedEmptyIff(records);
    raised := None;
  }

  /** `import_from_json`, as written: the loop inside `transaction.atomic`;
      an exception restores the tables and is raised again, otherwise the
      count is logged and returned. */
  method ImportFromJson(db: Database, records: seq<ImportRecord>, user: Option<nat>)
    returns (r: Result<nat, ServiceError>)
    requires db.Valid()
    modifies db
    ensures db.Valid() && db.online == old(db.online)
    ensures (r, db.tables) == ImportOutcome(old(db.tables), old(db.online), records, user)
  {
    if !db.online {
      return Failure(DbFailure(Unavailable));
    }
    var snapshot := db.tables;
    var importedCount, raised := ImportLoop(db, records);
    if raised.Some? {
      db.Rollback(snapshot);
      return Failure(raised.value);
    }
    FirstRaisedNone(records, true);
    ImportedEmptyIff(records);
    LogActivity(db, user, "import", ImportMessage(importedCount), None);
    r := Success(importedCount);
  }

  // ---------------------------------------------------------------------
  // What the import promises

  /** The imported data are those of the records with both required keys,
      in list order; the others are skipped. */
  lemma {:induction false} ImportedSpec(records: seq<ImportRecord>)
    ensures var f := Filter(records, (rec: ImportRecord) => Importable(rec));
      && |Imported(records)| == |f|
      && forall k :: 0 <= k < |f| ==> Importable(f[k]) && Imported(records)[k] == ImportData(f[k])
  {
    var p := (rec: ImportRecord) => Importable(rec);
    if records != [] {
      var init, last := records[..|records| - 1], records[|records| - 1];
      ImportedSpec(init);
      assert records == init + [last];
      FilterAppend(init, [last], p);
      assert [last][1..] == [];
    }
  }

  /** Import that raises nowhere succeeds with the number of importable
      records, touches neither the nested tables nor the collocations, and
      logs the count once. */
  lemma ImportSucceeds(t: Tables, records: seq<ImportRecord>, user: Option<nat>)
    requires WellFormed(t) && NoneRaise(records, true)
    ensures var f := Filter(records, (rec: ImportRecord) => Importable(rec));
      var out := ImportOutcome(t, true, records, user);
      && out.0 == Success(|f|)
      && WellFormed(out.1)
      && out.1.examples == t.examples && out.1.translations == t.translations && out.1.collocations == t.collocations
      && out.1.logs == t.logs + [ActivityLog(t.nextLogId, user, "import", ImportMessage(|f|), None, t.clock + |f|)]
  {
    FirstRaisedNone(records, true);
    ImportedSpec(records);
  }

  /** Import that raises nowhere appends one entry row per imported record,
      with consecutive ids and creation times, and keeps the existing ones;
      `ImportedSpec` says which records those are. */
  lemma ImportCreatesEntries(t: Tables, records: seq<ImportRecord>, user: Option<nat>)
    requires NoneRaise(records, true)
    ensures var ds, r := Imported(records), ImportOutcome(t, true, records, user).1;
      && |r.entries| == |t.entries| + |ds| && r.entries[..|t.entries|] == t.entries
      && forall k :: 0 <= k < |ds| ==>
           r.entries[|t.entries| + k] == NewEntry(t.nextEntryId + k, t.clock + k, ds[k])
  {
    FirstRaisedNone(records, true);
    var ds := Imported(records);
    var rows := EntryRows(ds, t.nextEntryId, t.clock);
    var r := ImportOutcome(t, true, records, user).1;
    assert r.entries == t.entries + rows;
    assert r.entries[..|t.entries|] == t.entries;
    forall k | 0 <= k < |ds| ensures r.entries[|t.entries| + k] == NewEntry(t.nextEntryId + k, t.clock + k, ds[k]) {
      assert r.entries[|t.entries| + k] == rows[k];
    }
  }

  /** The entry data of a record that raises nothing: each column holds the
      record's value when its key is present, and its default otherwise. */
  lemma ImportDataOfClean(rec: ImportRecord)
    requires Importable(rec) && RaisedBy(rec, true).None?
    ensures var d := ImportData(rec);
      && Some(d.isiZuluText) == rec.fields["isiZulu_text"]
      && Some(d.englishTranslation) == rec.fields["english_translation"]
      && ("part_of_speech" in rec.fields ==> Some(d.partOfSpeech) == rec.fields["part_of_speech"])
      && ("part_of_speech" !in rec.fields ==> d.partOfSpeech == "cultural")
      && ("genre" in rec.fields ==> Some(d.genre) == rec.fields["genre"])
      && ("genre" !in rec.fields ==> d.genre == "cultural")
      && ("cultural_context" in rec.fields ==> Some(d.culturalContext) == rec.fields["cultural_context"])
      && ("cultural_context" !in rec.fields ==> d.culturalContext == "")
      && ("source" in rec.fields ==> Some(d.source) == rec.fields["source"])
      && ("source" !in rec.fields ==> d.source == "")
      && d.isActive == None
  {
    forall i | 0 <= i < |ImportColumns| && ImportColumns[i] in rec.fields
      ensures rec.fields[ImportColumns[i]].Some?
    {
    }
    assert ImportColumns[0] == "isiZulu_text" && ImportColumns[1] == "english_translation";
    assert ImportColumns[2] == "part_of_speech" && ImportColumns[3] == "genre";
    assert ImportColumns[4] == "cultural_context" && ImportColumns[5] == "source";
  }

  /** The `k`-th entry row an import appends comes from the `k`-th importable
      record: the two texts are the record's, each optional column is the
      record's value when the key is present and otherwise `'cultural'`,
      `'cultural'`, `''` and `''`; the counter starts at zero and the row is
      active. */
  lemma ImportDataDefaults(t: Tables, records: seq<ImportRecord>, user: Option<nat>, k: nat)
    requires NoneRaise(records, true) && k < |Filter(records, (rec: ImportRecord) => Importable(rec))|
    ensures var rec := Filter(records, (rec: ImportRecord) => Importable(rec))[k];
      var out := ImportOutcome(t, true, records, user).1;
      |t.entries| + k < |out.entries| &&
      var e := out.entries[|t.entries| + k];
      && Some(e.isiZuluText) == rec.fields["isiZulu_text"]
      && Some(e.englishTranslation) == rec.fields["english_translation"]
      && ("part_of_speech" in rec.fields ==> Some(e.partOfSpeech) == rec.fields["part_of_speech"])
      && ("part_of_speech" !in rec.fields ==> e.partOfSpeech == "cultural")
      && ("genre" in rec.fields ==> Some(e.genre) == rec.fields["genre"])
      && ("genre" !in rec.fields ==> e.genre == "cultural")
      && ("cultural_context" in rec.fields ==> Some(e.culturalContext) == rec.fields["cultural_context"])
      && ("cultural_context" !in rec.fields ==> e.culturalContext == "")
      && ("source" in rec.fields ==> Some(e.source) == rec.fields["source"])
      && ("source" !in rec.fields ==> e.source == "")
      && e.frequency == 0 && e.isActive && e.id == t.nextEntryId + k
  {
    var f := Filter(records, (rec: ImportRecord) => Importable(rec));
    ImportedSpec(records);
    ImportCreatesEntries(t, records, user);
    var rec := f[k];
    assert rec in records;
    var j :| 0 <= j < |records| && records[j] == rec;
    ImportDataOfClean(rec);
    var out := ImportOutcome(t, true, records, user).1;
    assert out.entries[|t.entries| + k] == NewEntry(t.nextEntryId + k, t.clock + k, ImportData(rec));
  }

  /** All or nothing: import fails exactly when the database is unreachable
      or some record raises. Online the exception is that of the first record
      that raises; offline it is the database's. A failed
      import leaves every table and counter as it was. */
  lemma ImportFailsIff(t: Tables, online: bool, records: seq<ImportRecord>, user: Option<nat>)
    ensures var (res, r) := ImportOutcome(t, online, records, user);
      && (res.Failure? <==> !online || exists k :: 0 <= k < |records| && RaisedBy(records[k], true).Some?)
      && (res.Failure? ==> r == t)
      && (res.Failure? && online ==>
            exists k :: 0 <= k < |records| && NoneRaise(records[..k], true) && Some(res.error) == RaisedBy(records[k], true))
      && (res.Failure? && !online ==> res.error == DbFailure(Unavailable))
  {
    FirstRaisedNone(records, true);
    if online && FirstRaised(records, true).Some? {
      FirstRaisedWitness(records, true);
    }
  }

  /** A record whose translations are a JSON list, as the export writes them,
      ends an import with the `AttributeError` of `.items()` once every record
      before it imports cleanly, with or without the correction of the nested
      models. */
  lemma TranslationListFails(t: Tables, before: seq<ImportRecord>, rec: ImportRecord, rest: seq<ImportRecord>,
                             user: Option<nat>)
    requires WellFormed(t) && NoneRaise(before, true)
    requires Importable(rec) && !NullColumn(rec) && rec.examples == ExampleList([])
    requires rec.additionalTranslations == TranslationsNotObject
    ensures ImportOutcome(t, true, before + [rec] + rest, user) == (Failure(NoSuchMethod), t)
    ensures ImportOutcomeIntended(t, true, before + [rec] + rest, user) == (Failure(NoSuchMethod), t)
  {
    var records := before + [rec] + rest;
    var k := |before|;
    assert records[..k] == before && records[k] == rec;
    forall j | 0 <= j < k ensures RaisedBy(before[j], false).None? {
      assert RaisedBy(before[j], true).None?;
    }
    FirstRaisedAt(records, k, true);
    FirstRaisedAt(records, k, false);
  }

  // ---------------------------------------------------------------------
  // The import as intended

  /** The `examples` of a record as example data; missing keys default to `''`. */
  function RecordExamples(rec: ImportRecord): (xs: seq<ExampleData>)
    ensures |xs| == |ExampleItems(rec.examples)|
  {
    var items := ExampleItems(rec.examples);
    seq(|items|, k requires 0 <= k < |items| => ExampleData(Get(items[k], "isizulu", ""), Get(items[k], "english", "")))
  }

  /** The `additional_translations` pairs as translation data. */
  function RecordTranslations(rec: ImportRecord): (ts: seq<TranslationData>)
    ensures |ts| == |TranslationPairs(rec.additionalTranslations)|
    ensures DistinctLanguages(ts)
  {
    var ps := TranslationPairs(rec.additionalTranslations);
    seq(|ps|, k requires 0 <= k < |ps| => TranslationData(ps[k].0, ps[k].1))
  }

  /** The keyword arguments of a record's entry together with its nested
      rows. */
  function IntendedData(rec: ImportRecord): (d: EntryData)
    requires Importable(rec)
    ensures DistinctLanguages(d.translations)
  {
    ImportData(rec).(examples := RecordExamples(rec), translations := RecordTranslations(rec))
  }

  /** Nested examples of the importable records. */
  function ExampleCount(records: seq<ImportRecord>): nat {
    if records == [] then 0
    else
      var last := records[|records| - 1];
      ExampleCount(records[..|records| - 1]) + if Importable(last) then |ExampleItems(last.examples)| else 0
  }

  /** Nested translations of the importable records. */
  function TranslationCount(records: seq<ImportRecord>): nat {
    if records == [] then 0
    else
      var last := records[|records| - 1];
      TranslationCount(records[..|records| - 1]) +
        if Importable(last) then |TranslationPairs(last.additionalTranslations)| else 0
  }

  /** The import loop as intended, over records none of which raises: every
      importable record contributes its entry and all of its nested rows,
      the keys advance by what was added, and the invariants of the tables
      are kept. */
  function ImportAllIntended(t: Tables, records: seq<ImportRecord>): (r: Tables)
    requires WellFormed(t) && NoneRaise(records, false)
    ensures WellFormed(r)
    ensures |r.entries| == |t.entries| + |Imported(records)|
    ensures |r.examples| == |t.examples| + ExampleCount(records)
    ensures |r.translations| == |t.translations| + TranslationCount(records)
    ensures r.nextEntryId == t.nextEntryId + |Imported(records)|
    ensures r.nextExampleId == t.nextExampleId + ExampleCount(records)
    ensures r.nextTranslationId == t.nextTranslationId + TranslationCount(records)
    ensures r.collocations == t.collocations && r.logs == t.logs
  {
    if records == [] then t
    else
      var init, last := records[..|records| - 1], records[|records| - 1];
      NoneRaisePrefix(records, |records| - 1, false);
      var mid := ImportAllIntended(t, init);
      if Importable(last) then InsertEntryWithRows(mid, IntendedData(last)) else mid
  }

  /** `import_from_json` with the nested rows built by their own models. */
  function ImportOutcomeIntended(t: Tables, online: bool, records: seq<ImportRecord>, user: Option<nat>)
    : (out: (Result<nat, ServiceError>, Tables))
    requires WellFormed(t)
    ensures out.0.Failure? ==> out.1 == t
    ensures out.0.Success? ==> |out.1.entries| == |t.entries| + out.0.value
  {
    if !online then (Failure(DbFailure(Unavailable)), t)
    else match FirstRaised(records, false)
      case Some(e) => (Failure(e), t)
      case None =>
        FirstRaisedNone(records, false);
        var n := |Imported(records)|;
        (Success(n), InsertLog(ImportAllIntended(t, records), user, "import", ImportMessage(n), None))
  }

  /** Importing a list in two parts is importing it at once. */
  lemma {:induction false} IntendedAppend(t: Tables, a: seq<ImportRecord>, b: seq<ImportRecord>)
    requires WellFormed(t) && NoneRaise(a, false) && NoneRaise(b, false) && NoneRaise(a + b, false)
    ensures ImportAllIntended(t, a + b) == ImportAllIntended(ImportAllIntended(t, a), b)
  {
    if b == [] {
      assert a + b == a;
    } else {
      var n := |b| - 1;
      var init := b[..n];
      assert (a + b)[..|a + b| - 1] == a + init;
      assert (a + b)[|a + b| - 1] == b[n];
      NoneRaisePrefix(a + b, |a + b| - 1, false);
      NoneRaisePrefix(b, n, false);
      IntendedAppend(t, a, init);
    }
  }

  /** Importing records leaves the rows linked to an entry that already
      existed as they were. */
  lemma {:induction false} IntendedKeepsLinkedRows(t: Tables, records: seq<ImportRecord>, id: nat)
    requires WellFormed(t) && NoneRaise(records, false) && id < t.nextEntryId
    ensures var r := ImportAllIntended(t, records);
      && ExamplesOf(r.examples, id) == ExamplesOf(t.examples, id)
      && LinkedTranslations(r.translations, id) == LinkedTranslations(t.translations, id)
  {
    if records != [] {
      var init, last := records[..|records| - 1], records[|records| - 1];
      NoneRaisePrefix(records, |records| - 1, false);
      IntendedKeepsLinkedRows(t, init, id);
      if Importable(last) {
        CreateLinksRows(ImportAllIntended(t, init), IntendedData(last), id);
      }
    }
  }

  /** The nested rows of the entry created for the last record. */
  lemma IntendedRowsOfLast(t: Tables, init: seq<ImportRecord>, last: ImportRecord)
    requires WellFormed(t) && NoneRaise(init + [last], false) && NoneRaise(init, false) && Importable(last)
    ensures var r, mid := ImportAllIntended(t, init + [last]), ImportAllIntended(t, init);
      && mid.nextEntryId < r.nextEntryId
      && ExamplesOf(r.examples, mid.nextEntryId) == ExampleRows(RecordExamples(last), mid.nextEntryId, mid.nextExampleId)
      && LinkedTranslations(r.translations, mid.nextEntryId) ==
           TranslationRows(RecordTranslations(last), mid.nextEntryId, mid.nextTranslationId)
  {
    var records := init + [last];
    assert records[..|records| - 1] == init && records[|records| - 1] == last;
    var mid := ImportAllIntended(t, init);
    CreateLinksRows(mid, IntendedData(last), mid.nextEntryId);
  }

  /** The entry created for the `k`-th record gets the key that follows the
      import of the records before it, and exactly that record's examples and
      translations, numbered after the nested rows of those records
      (`ImportAllIntended` says by how much each key has advanced). */
  lemma IntendedRowsOfRecord(t: Tables, records: seq<ImportRecord>, k: nat)
    requires WellFormed(t) && NoneRaise(records, false) && k < |records| && Importable(records[k])
    ensures var r, mid := ImportAllIntended(t, records), ImportAllIntended(t, records[..k]);
      && ExamplesOf(r.examples, mid.nextEntryId) ==
           ExampleRows(RecordExamples(records[k]), mid.nextEntryId, mid.nextExampleId)
      && LinkedTranslations(r.translations, mid.nextEntryId) ==
           TranslationRows(RecordTranslations(records[k]), mid.nextEntryId, mid.nextTranslationId)
  {
    var pre, post := records[..k + 1], records[k + 1..];
    assert pre + post == records;
    assert pre[..k] == records[..k] && pre[k] == records[k];
    NoneRaisePrefix(records, k + 1, false);
    NoneRaiseSuffix(records, k + 1, false);
    NoneRaisePrefix(records, k, false);
    IntendedRowsOfLast(t, records[..k], records[k]);
    assert records[..k] + [records[k]] == pre;
    IntendedAppend(t, pre, post);
    var mid := ImportAllIntended(t, records[..k]);
    IntendedKeepsLinkedRows(ImportAllIntended(t, pre), post, mid.nextEntryId);
  }

  // ---------------------------------------------------------------------
  // The defect on a small list

  /** As written, an importable record with nested data ahead of any
      other makes the import raise and leaves the database untouched. */
  lemma NestedFirstFails(t: Tables, a: ImportRecord, rest: seq<ImportRecord>, user: Option<nat>)
    requires Importable(a) && !NullColumn(a) && HasNested(a)
    requires a.examples.ExampleList? && a.additionalTranslations.TranslationObject?
    ensures ImportOutcome(t, true, [a] + rest, user) == (Failure(UnexpectedKeyword), t)
  {
    var records := [a] + rest;
    assert records[..0] == [] && records[0] == a;
    FirstRaisedAt(records, 0, true);
  }

  /** Where the import as written raises nowhere, the import as intended does
      the same: the correction only changes records with nested data. */
  lemma IntendedAgreesWithoutNested(t: Tables, online: bool, records: seq<ImportRecord>, user: Option<nat>)
    requires WellFormed(t) && NoneRaise(records, true)
    ensures ImportOutcomeIntended(t, online, records, user) == ImportOutcome(t, online, records, user)
  {
    FirstRaisedNone(records, true);
    FirstRaisedNone(records, false);
    IntendedInsertsEntries(t, records);
  }

  lemma {:induction false} IntendedInsertsEntries(t: Tables, records: seq<ImportRecord>)
    requires WellFormed(t) && NoneRaise(records, true)
    ensures NoneRaise(records, false)
    ensures ImportAllIntended(t, records) == InsertEntries(t, Imported(records))
  {
    if records != [] {
      var k := |records| - 1;
      var init, last := records[..k], records[k];
      assert records[..k + 1] == records;
      NoneRaiseSnoc(records, k, true);
      ImportedSnoc(records, k);
      IntendedInsertsEntries(t, init);
      if Importable(last) {
        var mid := InsertEntries(t, Imported(init));
        assert IntendedData(last) == ImportData(last);
        InsertEntriesSnoc(t, Imported(init), ImportData(last));
      }
    }
  }
}
