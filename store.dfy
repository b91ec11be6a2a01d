/** The database behind the ORM: the five tables, their primary-key counters,
    a creation clock standing for `created_at`, and whether the database
    accepts queries. Every manager call the services make is a method of
    `Database`; a call made while the database is unavailable raises and
    changes nothing. */
module Store {
  import opened Wrappers
  import opened Seqs
  import opened Models

  datatype Tables = Tables(
    entries: seq<CulturalEntry>,
    examples: seq<UsageExample>,
    translations: seq<AdditionalTranslation>,
    collocations: seq<Collocation>,
    logs: seq<ActivityLog>,
    nextEntryId: nat,
    nextExampleId: nat,
    nextTranslationId: nat,
    nextLogId: nat,
    clock: nat)

  /** What a failing database call raises. */
  datatype DbError = Unavailable | IntegrityError

  const EmptyTables := Tables([], [], [], [], [], 1, 1, 1, 1, 0)

  /** Structural invariants of the tables: primary keys increase along each
      table and stay below their counter, creation ticks increase and stay
      below the clock, foreign keys point below the entry counter, and the
      two `unique_together` constraints hold. */
  predicate WellFormed(t: Tables) {
    && IdsIncreasing(t.entries) && CreationOrdered(t.entries)
    && (forall i :: 0 <= i < |t.entries| ==> t.entries[i].id < t.nextEntryId && t.entries[i].createdAt < t.clock)
    && ExampleIdsIncreasing(t.examples)
    && (forall i :: 0 <= i < |t.examples| ==>
          t.examples[i].id < t.nextExampleId && t.examples[i].entryId < t.nextEntryId)
    && TranslationIdsIncreasing(t.translations)
    && (forall i :: 0 <= i < |t.translations| ==>
          t.translations[i].id < t.nextTranslationId && t.translations[i].entryId < t.nextEntryId)
    && UniqueLanguages(t.translations)
    && UniquePhrases(t.collocations)
    && LogsOrdered(t.logs)
    && (forall i :: 0 <= i < |t.logs| ==> t.logs[i].id < t.nextLogId && t.logs[i].createdAt < t.clock)
  }

  predicate ExampleIdsIncreasing(xs: seq<UsageExample>) {
    forall i, j :: 0 <= i < j < |xs| ==> xs[i].id < xs[j].id
  }

  predicate TranslationIdsIncreasing(ts: seq<AdditionalTranslation>) {
    forall i, j :: 0 <= i < j < |ts| ==> ts[i].id < ts[j].id
  }

  predicate LogsOrdered(ls: seq<ActivityLog>) {
    forall i, j :: 0 <= i < j < |ls| ==> ls[i].id < ls[j].id && ls[i].createdAt < ls[j].createdAt
  }

  // ---------------------------------------------------------------------
  // Table operations as functions of the tables

  /** An entry row appended with the next key and the next tick. */
  function InsertEntry(t: Tables, d: EntryData): (r: Tables)
    ensures r.entries == t.entries + [NewEntry(t.nextEntryId, t.clock, d)]
    ensures r == t.(entries := r.entries, nextEntryId := t.nextEntryId + 1, clock := t.clock + 1)
    ensures WellFormed(t) ==> WellFormed(r)
  {
    t.(entries := t.entries + [NewEntry(t.nextEntryId, t.clock, d)],
       nextEntryId := t.nextEntryId + 1, clock := t.clock + 1)
  }

  /** An example row linked to `entryId`, appended with the next key. */
  function InsertExample(t: Tables, entryId: nat, x: ExampleData): (r: Tables)
    requires entryId < t.nextEntryId
    ensures r.examples == t.examples + [UsageExample(t.nextExampleId, entryId, x.isiZuluExample, x.englishExample)]
    ensures r == t.(examples := r.examples, nextExampleId := t.nextExampleId + 1)
    ensures WellFormed(t) ==> WellFormed(r)
  {
    t.(examples := t.examples + [UsageExample(t.nextExampleId, entryId, x.isiZuluExample, x.englishExample)],
       nextExampleId := t.nextExampleId + 1)
  }

  /** Whether a translation row for this entry and language already exists. */
  predicate HasTranslation(ts: seq<AdditionalTranslation>, entryId: nat, language: string) {
    exists k :: 0 <= k < |ts| && ts[k].entryId == entryId && ts[k].language == language
  }

  /** A translation row appended with the next key; the caller has checked
      the uniqueness constraint. */
  function InsertTranslation(t: Tables, entryId: nat, d: TranslationData): (r: Tables)
    requires entryId < t.nextEntryId
    requires !HasTranslation(t.translations, entryId, d.language)
    ensures r.translations == t.translations + [AdditionalTranslation(t.nextTranslationId, entryId, d.language, d.translation)]
    ensures r == t.(translations := r.translations, nextTranslationId := t.nextTranslationId + 1)
    ensures WellFormed(t) ==> WellFormed(r)
  {
    var row := AdditionalTranslation(t.nextTranslationId, entryId, d.language, d.translation);
    var r := t.(translations := t.translations + [row], nextTranslationId := t.nextTranslationId + 1);
    assert WellFormed(t) ==> UniqueLanguages(r.translations) by {
      if WellFormed(t) {
        forall i, j | 0 <= i < j < |r.translations|
          ensures r.translations[i].entryId != r.translations[j].entryId || r.translations[i].language != r.translations[j].language
        {
          if j == |t.translations| {
            assert r.translations[i] == t.translations[i];
          }
        }
      }
    }
    r
  }

  /** The value a `GenericIPAddressField` column stores: a blank address is
      written as NULL, every other value as given. */
  function StoredIp(ip: Option<string>): (r: Option<string>)
    ensures r != Some("")
    ensures ip != Some("") ==> r == ip
    ensures ip == Some("") ==> r.None?
  {
    if ip == Some("") then None else ip
  }

  /** An activity-log row appended with the next key and the next tick. */
  function InsertLog(t: Tables, user: Option<nat>, action: string, description: string, ip: Option<string>): (r: Tables)
    ensures r.logs == t.logs + [ActivityLog(t.nextLogId, user, action, description, StoredIp(ip), t.clock)]
    ensures r == t.(logs := r.logs, nextLogId := t.nextLogId + 1, clock := t.clock + 1)
    ensures WellFormed(t) ==> WellFormed(r)
  {
    t.(logs := t.logs + [ActivityLog(t.nextLogId, user, action, description, StoredIp(ip), t.clock)],
       nextLogId := t.nextLogId + 1, clock := t.clock + 1)
  }

  /** `instance.save()` on an existing row: the row at index `i` takes the
      instance's values. */
  function SaveEntry(t: Tables, i: nat, e: CulturalEntry): (r: Tables)
    requires i < |t.entries| && e.id == t.entries[i].id && e.createdAt == t.entries[i].createdAt
    ensures r == t.(entries := t.entries[i := e])
    ensures WellFormed(t) ==> WellFormed(r)
  {
    t.(entries := t.entries[i := e])
  }

  /** `instance.examples.all().delete()`. */
  function DeleteExamplesOf(t: Tables, entryId: nat): (r: Tables)
    ensures r == t.(examples := Filter(t.examples, (x: UsageExample) => x.entryId != entryId))
    ensures forall x :: x in r.examples <==> x in t.examples && x.entryId != entryId
    ensures WellFormed(t) ==> WellFormed(r)
  {
    var p := (x: UsageExample) => x.entryId != entryId;
    var r := t.(examples := Filter(t.examples, p));
    assert WellFormed(t) ==> WellFormed(r) by {
      if WellFormed(t) {
        FilterKeepsOrder(t.examples, p, (a: UsageExample, b: UsageExample) => a.id < b.id);
      }
    }
    r
  }

  /** `instance.additional_translations.all().delete()`. */
  function DeleteTranslationsOf(t: Tables, entryId: nat): (r: Tables)
    ensures r == t.(translations := Filter(t.translations, (x: AdditionalTranslation) => x.entryId != entryId))
    ensures forall x :: x in r.translations <==> x in t.translations && x.entryId != entryId
    ensures forall l: string :: !HasTranslation(r.translations, entryId, l)
    ensures WellFormed(t) ==> WellFormed(r)
  {
    var p := (x: AdditionalTranslation) => x.entryId != entryId;
    var r := t.(translations := Filter(t.translations, p));
    assert WellFormed(t) ==> WellFormed(r) by {
      if WellFormed(t) {
        FilterKeepsOrder(t.translations, p, (a: AdditionalTranslation, b: AdditionalTranslation) => a.id < b.id);
        FilterKeepsOrder(t.translations, p, (a: AdditionalTranslation, b: AdditionalTranslation) =>
          a.entryId != b.entryId || a.language != b.language);
      }
    }
    assert forall l: string :: !HasTranslation(r.translations, entryId, l) by {
      forall k | 0 <= k < |r.translations| ensures r.translations[k].entryId != entryId {
        assert r.translations[k] in r.translations;
      }
    }
    r
  }

  /** Whether `language` is the language of one of `ts`. */
  predicate LanguageIn(language: string, ts: seq<TranslationData>) {
    exists k :: 0 <= k < |ts| && ts[k].language == language
  }

  /** No two supplied translations share a language. */
  predicate DistinctLanguages(ts: seq<TranslationData>) {
    forall i, j :: 0 <= i < j < |ts| ==> ts[i].language != ts[j].language
  }

  /** The example rows for `xs`, created one after another for `entryId`. */
  function InsertExamples(t: Tables, entryId: nat, xs: seq<ExampleData>): (r: Tables)
    requires entryId < t.nextEntryId
    ensures r.examples == t.examples + ExampleRows(xs, entryId, t.nextExampleId)
    ensures r == t.(examples := r.examples, nextExampleId := t.nextExampleId + |xs|)
    ensures WellFormed(t) ==> WellFormed(r)
    decreases |xs|
  {
    if xs == [] then t
    else
      var init := xs[..|xs| - 1];
      assert ExampleRows(xs, entryId, t.nextExampleId) ==
        ExampleRows(init, entryId, t.nextExampleId) + [ExampleRows(xs, entryId, t.nextExampleId)[|xs| - 1]];
      InsertExample(InsertExamples(t, entryId, init), entryId, xs[|xs| - 1])
  }

  /** The translation rows for `ts`, created one after another for an entry
      that has none yet; the languages must be distinct. */
  function InsertTranslations(t: Tables, entryId: nat, ts: seq<TranslationData>): (r: Tables)
    requires entryId < t.nextEntryId
    requires forall l: string :: !HasTranslation(t.translations, entryId, l)
    requires DistinctLanguages(ts)
    ensures r.translations == t.translations + TranslationRows(ts, entryId, t.nextTranslationId)
    ensures r == t.(translations := r.translations, nextTranslationId := t.nextTranslationId + |ts|)
    ensures WellFormed(t) ==> WellFormed(r)
    decreases |ts|
  {
    if ts == [] then t
    else
      var init, last := ts[..|ts| - 1], ts[|ts| - 1];
      var mid := InsertTranslations(t, entryId, init);
      assert !HasTranslation(mid.translations, entryId, last.language) by {
        forall k | 0 <= k < |mid.translations| && mid.translations[k].entryId == entryId
          ensures mid.translations[k].language != last.language
        {
          if k < |t.translations| {
            assert mid.translations[k] == t.translations[k];
            assert !HasTranslation(t.translations, entryId, last.language);
          } else {
            assert mid.translations[k] == TranslationRows(init, entryId, t.nextTranslationId)[k - |t.translations|];
          }
        }
      }
      assert TranslationRows(ts, entryId, t.nextTranslationId) ==
        TranslationRows(init, entryId, t.nextTranslationId) + [TranslationRows(ts, entryId, t.nextTranslationId)[|ts| - 1]];
      InsertTranslation(mid, entryId, last)
  }

  /** After the rows for `ts` are appended, an entry that had no translation
      in language `l` has one exactly when `l` was supplied. */
  lemma HasTranslationIff(prev: seq<AdditionalTranslation>, entryId: nat, ts: seq<TranslationData>, firstId: nat, l: string)
    requires !HasTranslation(prev, entryId, l)
    ensures HasTranslation(prev + TranslationRows(ts, entryId, firstId), entryId, l) <==> LanguageIn(l, ts)
  {
    var added := TranslationRows(ts, entryId, firstId);
    var rows := prev + added;
    if HasTranslation(rows, entryId, l) {
      var k :| 0 <= k < |rows| && rows[k].entryId == entryId && rows[k].language == l;
      AppendedIndex(prev, added, k, entryId, l);
      assert TranslationDataOf(added[k - |prev|]) == ts[k - |prev|];
    }
    if LanguageIn(l, ts) {
      var j :| 0 <= j < |ts| && ts[j].language == l;
      assert rows[|prev| + j] == added[j];
      assert TranslationDataOf(added[j]) == ts[j];
    }
  }

  /** A row of `prev + added` for the entry and language that `prev` lacks
      lies in `added`. */
  lemma AppendedIndex(prev: seq<AdditionalTranslation>, added: seq<AdditionalTranslation>, k: nat, entryId: nat, l: string)
    requires !HasTranslation(prev, entryId, l)
    requires k < |prev + added| && (prev + added)[k].entryId == entryId && (prev + added)[k].language == l
    ensures |prev| <= k && added[k - |prev|] == (prev + added)[k]
  {
    assert forall i :: 0 <= i < |prev| ==> (prev + added)[i] == prev[i];
  }

  /** A distinct prefix stays distinct one element longer exactly when the
      next language is new. */
  lemma DistinctSnoc(ts: seq<TranslationData>, k: nat)
    requires k < |ts| && DistinctLanguages(ts[..k])
    ensures DistinctLanguages(ts[..k + 1]) <==> !LanguageIn(ts[k].language, ts[..k])
  {
    var p := ts[..k + 1];
    if LanguageIn(ts[k].language, ts[..k]) {
      var j :| 0 <= j < k && ts[..k][j].language == ts[k].language;
      assert p[j].language == p[k].language;
    } else {
      forall i, j | 0 <= i < j < k + 1 ensures p[i].language != p[j].language {
        if j < k {
          assert p[i] == ts[..k][i] && p[j] == ts[..k][j];
        } else {
          assert p[i] == ts[..k][i];
        }
      }
    }
  }

  /** The nested rows of one entry that has none yet: one example row per
      example, then one translation row per translation. */
  function InsertNestedRows(t: Tables, entryId: nat, xs: seq<ExampleData>, ts: seq<TranslationData>): (r: Tables)
    requires WellFormed(t) && entryId < t.nextEntryId
    requires forall l: string :: !HasTranslation(t.translations, entryId, l)
    requires DistinctLanguages(ts)
    ensures WellFormed(r)
    ensures r.examples == t.examples + ExampleRows(xs, entryId, t.nextExampleId)
    ensures r.translations == t.translations + TranslationRows(ts, entryId, t.nextTranslationId)
    ensures r == t.(examples := r.examples, translations := r.translations,
                    nextExampleId := t.nextExampleId + |xs|, nextTranslationId := t.nextTranslationId + |ts|)
  {
    var t1 := InsertExamples(t, entryId, xs);
    assert t1.translations == t.translations;
    InsertTranslations(t1, entryId, ts)
  }

  /** A new entry followed by its nested rows: one example row per supplied
      example, then one translation row per supplied translation, all
      linked to the new entry. */
  function InsertEntryWithRows(t: Tables, d: EntryData): (r: Tables)
    requires WellFormed(t) && DistinctLanguages(d.translations)
    ensures WellFormed(r)
    ensures r.entries == t.entries + [NewEntry(t.nextEntryId, t.clock, d)]
    ensures r.examples == t.examples + ExampleRows(d.examples, t.nextEntryId, t.nextExampleId)
    ensures r.translations == t.translations + TranslationRows(d.translations, t.nextEntryId, t.nextTranslationId)
    ensures r == t.(entries := r.entries, examples := r.examples, translations := r.translations,
                    nextEntryId := t.nextEntryId + 1, nextExampleId := t.nextExampleId + |d.examples|,
                    nextTranslationId := t.nextTranslationId + |d.translations|, clock := t.clock + 1)
  {
    NothingLinkedToNext(t);
    InsertNestedRows(InsertEntry(t, d), t.nextEntryId, d.examples, d.translations)
  }

  /** No row refers to the key the next entry will get. */
  lemma NothingLinkedToNext(t: Tables)
    requires WellFormed(t)
    ensures forall l: string :: !HasTranslation(t.translations, t.nextEntryId, l)
    ensures forall k :: 0 <= k < |t.examples| ==> t.examples[k].entryId != t.nextEntryId
  {
    forall l: string ensures !HasTranslation(t.translations, t.nextEntryId, l) {
    }
  }

  /** The counter that `bulk_update` writes for table row `e`: that of the
      first updated row with the same primary key, or its own. */
  function FrequencyFor(rows: seq<CulturalEntry>, e: CulturalEntry): nat {
    if rows == [] then e.frequency
    else if rows[0].id == e.id then rows[0].frequency
    else FrequencyFor(rows[1..], e)
  }

  /** `bulk_update(rows, ['frequency'])`: only the `frequency` column of the
      rows whose id is among `rows` is written. */
  function BulkUpdateFrequency(table: seq<CulturalEntry>, rows: seq<CulturalEntry>): (r: seq<CulturalEntry>)
    ensures |r| == |table|
  {
    seq(|table|, i requires 0 <= i < |table| => table[i].(frequency := FrequencyFor(rows, table[i])))
  }

  lemma {:induction false} FrequencyForAbsent(rows: seq<CulturalEntry>, e: CulturalEntry)
    requires forall k :: 0 <= k < |rows| ==> rows[k].id != e.id
    ensures FrequencyFor(rows, e) == e.frequency
  {
    if rows != [] {
      FrequencyForAbsent(rows[1..], e);
    }
  }

  lemma {:induction false} FrequencyForPresent(rows: seq<CulturalEntry>, e: CulturalEntry, n: nat)
    requires exists k :: 0 <= k < |rows| && rows[k].id == e.id
    requires forall k :: 0 <= k < |rows| && rows[k].id == e.id ==> rows[k].frequency == n
    ensures FrequencyFor(rows, e) == n
  {
    if rows[0].id != e.id {
      var k :| 0 <= k < |rows| && rows[k].id == e.id;
      assert rows[1..][k - 1] == rows[k];
      FrequencyForPresent(rows[1..], e, n);
    }
  }

  /** The frequency write-back of a bulk update. */
  function WriteFrequencies(t: Tables, rows: seq<CulturalEntry>): (r: Tables)
    ensures r == t.(entries := BulkUpdateFrequency(t.entries, rows))
    ensures WellFormed(t) ==> WellFormed(r)
  {
    t.(entries := BulkUpdateFrequency(t.entries, rows))
  }

  // ---------------------------------------------------------------------
  // The database object

  class Database {
    var tables: Tables
    /** Whether the database accepts queries; when it does not, every call
        below raises. */
    var online: bool

    ghost predicate Valid()
      reads this
    {
      WellFormed(tables)
    }

    constructor (online: bool)
      ensures tables == EmptyTables && this.online == online
      ensures Valid()
    {
      tables := EmptyTables;
      this.online := online;
    }

    /** `CulturalEntry.objects.create(...)`: model defaults apply and nothing
        is validated. */
    method CreateEntry(d: EntryData) returns (r: Result<CulturalEntry, DbError>)
      requires Valid()
      modifies this
      ensures Valid() && online == old(online)
      ensures old(online) ==>
                r == Success(NewEntry(old(tables).nextEntryId, old(tables).clock, d)) &&
                tables == InsertEntry(old(tables), d)
      ensures !old(online) ==> r == Failure(Unavailable) && tables == old(tables)
    {
      if !online {
        return Failure(Unavailable);
      }
      r := Success(NewEntry(tables.nextEntryId, tables.clock, d));
      tables := InsertEntry(tables, d);
    }

    /** `UsageExample.objects.create(entry=..., ...)`. */
    method CreateExample(entryId: nat, x: ExampleData) returns (r: Result<UsageExample, DbError>)
      requires Valid() && entryId < tables.nextEntryId
      modifies this
      ensures Valid() && online == old(online)
      ensures old(online) ==> r.Success? && tables == InsertExample(old(tables), entryId, x)
      ensures !old(online) ==> r == Failure(Unavailable) && tables == old(tables)
    {
      if !online {
        return Failure(Unavailable);
      }
      r := Success(UsageExample(tables.nextExampleId, entryId, x.isiZuluExample, x.englishExample));
      tables := InsertExample(tables, entryId, x);
    }

    /** `AdditionalTranslation.objects.create(entry=..., ...)`: a second row
        for the same entry and language violates `unique_together`. */
    method CreateTranslation(entryId: nat, d: TranslationData) returns (r: Result<AdditionalTranslation, DbError>)
      requires Valid() && entryId < tables.nextEntryId
      modifies this
      ensures Valid() && online == old(online)
      ensures !old(online) ==> r == Failure(Unavailable) && tables == old(tables)
      ensures old(online) && HasTranslation(old(tables).translations, entryId, d.language) ==>
                r == Failure(IntegrityError) && tables == old(tables)
      ensures old(online) && !HasTranslation(old(tables).translations, entryId, d.language) ==>
                r.Success? && tables == InsertTranslation(old(tables), entryId, d)
    {
      if !online {
        return Failure(Unavailable);
      }
      if HasTranslation(tables.translations, entryId, d.language) {
        return Failure(IntegrityError);
      }
      r := Success(AdditionalTranslation(tables.nextTranslationId, entryId, d.language, d.translation));
      tables := InsertTranslation(tables, entryId, d);
    }

    /** `ActivityLog.objects.create(...)`. */
    method CreateLog(user: Option<nat>, action: string, description: string, ip: Option<string>)
      returns (r: Result<ActivityLog, DbError>)
      requires Valid()
      modifies this
      ensures Valid() && online == old(online)
      ensures old(online) ==> r.Success? && tables == InsertLog(old(tables), user, action, description, ip)
      ensures !old(online) ==> r == Failure(Unavailable) && tables == old(tables)
    {
      if !online {
        return Failure(Unavailable);
      }
      r := Success(ActivityLog(tables.nextLogId, user, action, description, StoredIp(ip), tables.clock));
      tables := InsertLog(tables, user, action, description, ip);
    }

    /** `instance.save()` for the entry stored at index `i`. */
    method Save(i: nat, e: CulturalEntry) returns (r: Result<(), DbError>)
      requires Valid()
      requires i < |tables.entries| && e.id == tables.entries[i].id && e.createdAt == tables.entries[i].createdAt
      modifies this
      ensures Valid() && online == old(online)
      ensures old(online) ==> r.Success? && tables == SaveEntry(old(tables), i, e)
      ensures !old(online) ==> r == Failure(Unavailable) && tables == old(tables)
    {
      if !online {
        return Failure(Unavailable);
      }
      tables := SaveEntry(tables, i, e);
      r := Success(());
    }

    /** `instance.examples.all().delete()`. */
    method DeleteExamples(entryId: nat) returns (r: Result<(), DbError>)
      requires Valid()
      modifies this
      ensures Valid() && online == old(online)
      ensures old(online) ==> r.Success? && tables == DeleteExamplesOf(old(tables), entryId)
      ensures !old(online) ==> r == Failure(Unavailable) && tables == old(tables)
    {
      if !online {
        return Failure(Unavailable);
      }
      tables := DeleteExamplesOf(tables, entryId);
      r := Success(());
    }

    /** `instance.additional_translations.all().delete()`. */
    method DeleteTranslations(entryId: nat) returns (r: Result<(), DbError>)
      requires Valid()
      modifies this
      ensures Valid() && online == old(online)
      ensures old(online) ==> r.Success? && tables == DeleteTranslationsOf(old(tables), entryId)
      ensures !old(online) ==> r == Failure(Unavailable) && tables == old(tables)
    {
      if !online {
        return Failure(Unavailable);
      }
      tables := DeleteTranslationsOf(tables, entryId);
      r := Success(());
    }

    /** `bulk_update(rows, ['frequency'])`. */
    method BulkUpdate(rows: seq<CulturalEntry>) returns (r: Result<(), DbError>)
      requires Valid()
      modifies this
      ensures Valid() && online == old(online)
      ensures old(online) ==> r.Success? && tables == WriteFrequencies(old(tables), rows)
      ensures !old(online) ==> r == Failure(Unavailable) && tables == old(tables)
    {
      if !online {
        return Failure(Unavailable);
      }
      tables := WriteFrequencies(tables, rows);
      r := Success(());
    }

    /** One `UsageExample.objects.create` per supplied example, in order. The
        first failing call ends the loop; rows created before it stay. */
    method CreateExamples(entryId: nat, xs: seq<ExampleData>) returns (r: Result<(), DbError>)
      requires Valid() && entryId < tables.nextEntryId
      modifies this
      ensures Valid() && online == old(online)
      ensures old(online) ==> r.Success? && tables == InsertExamples(old(tables), entryId, xs)
      ensures !old(online) ==> (r.Failure? <==> xs != []) && tables == old(tables)
    {
      for k := 0 to |xs|
        invariant Valid() && online == old(online) && entryId < tables.nextEntryId
        invariant tables == InsertExamples(old(tables), entryId, xs[..k])
        invariant !online ==> tables == old(tables)
      {
        assert xs[..k + 1][..k] == xs[..k];
        var c := CreateExample(entryId, xs[k]);
        if c.Failure? {
          return Failure(c.error);
        }
      }
      assert xs[..|xs|] == xs;
      r := Success(());
    }

    /** One `AdditionalTranslation.objects.create` per supplied translation,
        in order, for an entry that has none yet. A repeated language violates
        `unique_together` at the first repeat; the rows before it stay. */
    method CreateTranslations(entryId: nat, ts: seq<TranslationData>) returns (r: Result<(), DbError>)
      requires Valid() && entryId < tables.nextEntryId
      requires forall l: string :: !HasTranslation(tables.translations, entryId, l)
      modifies this
      ensures Valid() && online == old(online)
      ensures !old(online) ==> (r.Failure? <==> ts != []) && tables == old(tables)
      ensures old(online) ==> (r.Success? <==> DistinctLanguages(ts))
      ensures old(online) && r.Success? ==> tables == InsertTranslations(old(tables), entryId, ts)
      ensures old(online) && r.Failure? ==>
        r.error == IntegrityError &&
        exists k :: 0 <= k < |ts| && DistinctLanguages(ts[..k]) && LanguageIn(ts[k].language, ts[..k]) &&
          tables == InsertTranslations(old(tables), entryId, ts[..k])
    {
      for k := 0 to |ts|
        invariant online == old(online)
        invariant DistinctLanguages(ts[..k])
        invariant tables == InsertTranslations(old(tables), entryId, ts[..k])
        invariant !online ==> tables == old(tables)
      {
        assert ts[..k + 1][..k] == ts[..k];
        HasTranslationIff(old(tables).translations, entryId, ts[..k], old(tables).nextTranslationId, ts[k].language);
        DistinctSnoc(ts, k);
        var c := CreateTranslation(entryId, ts[k]);
        if c.Failure? {
          if online {
            var j :| 0 <= j < k && ts[..k][j].language == ts[k].language;
            assert ts[j].language == ts[k].language;
          }
          return Failure(c.error);
        }
      }
      assert ts[..|ts|] == ts;
      r := Success(());
    }

    /** `transaction.atomic` leaving its block by an exception: the tables,
        counters included, return to the state on entry. */
    method Rollback(snapshot: Tables)
      requires WellFormed(snapshot)
      modifies this
      ensures Valid() && online == old(online) && tables == snapshot
    {
      tables := snapshot;
    }
  }
}
