/** `CulturalEntrySerializer`: the nested `create` and `update` of an entry
    together with its usage examples and additional translations. The
    validated data arrive already checked field by field; `id`,
    `frequency`, `created_at` and `updated_at` are read-only and so never
    part of them. */
module Serializers {
  import opened Wrappers
  import opened Seqs
  import opened Models
  import opened Store

  // ---------------------------------------------------------------------
  // create

  /** `create`: the entry, then one example row per supplied example, then
      one translation row per supplied translation. Without a transaction
      around it, a repeated language fails on its row and leaves the rows
      written before it in place. */
  method Create(db: Database, d: EntryData) returns (r: Result<CulturalEntry, DbError>)
    requires db.Valid()
    modifies db
    ensures db.Valid() && db.online == old(db.online)
    ensures !old(db.online) ==> r == Failure(Unavailable) && db.tables == old(db.tables)
    ensures old(db.online) && DistinctLanguages(d.translations) ==>
      r == Success(NewEntry(old(db.tables).nextEntryId, old(db.tables).clock, d)) &&
      db.tables == InsertEntryWithRows(old(db.tables), d)
    ensures old(db.online) && !DistinctLanguages(d.translations) ==>
      r == Failure(IntegrityError) &&
      exists k :: 0 <= k < |d.translations| && DistinctLanguages(d.translations[..k]) &&
        LanguageIn(d.translations[k].language, d.translations[..k]) &&
        db.tables == InsertEntryWithRows(old(db.tables), d.(translations := d.translations[..k]))
  {
    ghost var t0 := db.tables;
    NothingLinkedToNext(t0);
    var created := db.CreateEntry(d);
    if created.Failure? {
      return Failure(created.error);
    }
    var entry := created.value;
    var _ := db.CreateExamples(entry.id, d.examples);
    ghost var t2 := db.tables;
    assert t2 == InsertExamples(InsertEntry(t0, d), t0.nextEntryId, d.examples);
    assert t2.translations == t0.translations;
    var added := db.CreateTranslations(entry.id, d.translations);
    if added.Failure? {
      ghost var k :| 0 <= k < |d.translations| && DistinctLanguages(d.translations[..k]) &&
        LanguageIn(d.translations[k].language, d.translations[..k]) &&
        db.tables == InsertTranslations(t2, entry.id, d.translations[..k]);
      assert db.tables == InsertEntryWithRows(t0, d.(translations := d.translations[..k]));
      return Failure(added.error);
    }
    r := Success(entry);
  }

  /** After `create`, the new entry's examples are exactly the supplied ones
      and its translation rows exactly the supplied ones, each linked to it;
      every other entry keeps its rows. */
  lemma CreateLinksRows(t: Tables, d: EntryData, other: nat)
    requires WellFormed(t) && DistinctLanguages(d.translations)
    ensures var r, id := InsertEntryWithRows(t, d), t.nextEntryId;
      && ExamplesOf(r.examples, id) == ExampleRows(d.examples, id, t.nextExampleId)
      && LinkedTranslations(r.translations, id) == TranslationRows(d.translations, id, t.nextTranslationId)
      && (other != id ==>
            ExamplesOf(r.examples, other) == ExamplesOf(t.examples, other) &&
            LinkedTranslations(r.translations, other) == LinkedTranslations(t.translations, other))
  {
    var id := t.nextEntryId;
    var r := InsertEntryWithRows(t, d);
    var exRows := ExampleRows(d.examples, id, t.nextExampleId);
    var trRows := TranslationRows(d.translations, id, t.nextTranslationId);
    NothingLinkedToNext(t);
    FilterAppendFresh(t.examples, exRows, (x: UsageExample) => x.entryId == id);
    FilterAppendFresh(t.translations, trRows, (x: AdditionalTranslation) => x.entryId == id);
    if other != id {
      FilterAppendIgnored(t.examples, exRows, (x: UsageExample) => x.entryId == other);
      FilterAppendIgnored(t.translations, trRows, (x: AdditionalTranslation) => x.entryId == other);
    }
  }

  // ---------------------------------------------------------------------
  // update: the scalar fields

  /** The writable scalar fields of an entry. */
  datatype Field = IsiZuluText | EnglishTranslation | PartOfSpeech | Genre | CulturalContext | Source | IsActive

  /** One item of the validated data: a writable field and its new value. */
  datatype Assignment =
    | SetIsiZuluText(text: string)
    | SetEnglishTranslation(text: string)
    | SetPartOfSpeech(text: string)
    | SetGenre(text: string)
    | SetCulturalContext(text: string)
    | SetSource(text: string)
    | SetIsActive(flag: bool)

  function FieldOf(a: Assignment): Field {
    match a
    case SetIsiZuluText(_) => IsiZuluText
    case SetEnglishTranslation(_) => EnglishTranslation
    case SetPartOfSpeech(_) => PartOfSpeech
    case SetGenre(_) => Genre
    case SetCulturalContext(_) => CulturalContext
    case SetSource(_) => Source
    case SetIsActive(_) => IsActive
  }

  /** The current value of field `f` of `e`, as the assignment that would
      set it. */
  function Read(e: CulturalEntry, f: Field): (a: Assignment)
    ensures FieldOf(a) == f
  {
    match f
    case IsiZuluText => SetIsiZuluText(e.isiZuluText)
    case EnglishTranslation => SetEnglishTranslation(e.englishTranslation)
    case PartOfSpeech => SetPartOfSpeech(e.partOfSpeech)
    case Genre => SetGenre(e.genre)
    case CulturalContext => SetCulturalContext(e.culturalContext)
    case Source => SetSource(e.source)
    case IsActive => SetIsActive(e.isActive)
  }

  /** `setattr(instance, attr, value)`: the assigned field reads back the new
      value, and every other field, read-only ones included, is kept. */
  function Assign(e: CulturalEntry, a: Assignment): (r: CulturalEntry)
    ensures Read(r, FieldOf(a)) == a
    ensures forall f :: f != FieldOf(a) ==> Read(r, f) == Read(e, f)
    ensures r.id == e.id && r.frequency == e.frequency && r.createdAt == e.createdAt
  {
    match a
    case SetIsiZuluText(s) => e.(isiZuluText := s)
    case SetEnglishTranslation(s) => e.(englishTranslation := s)
    case SetPartOfSpeech(s) => e.(partOfSpeech := s)
    case SetGenre(s) => e.(genre := s)
    case SetCulturalContext(s) => e.(culturalContext := s)
    case SetSource(s) => e.(source := s)
    case SetIsActive(b) => e.(isActive := b)
  }

  /** The items of a validated-data dictionary: each field at most once. */
  type ValidatedItems = items: seq<Assignment> | forall i, j :: 0 <= i < j < |items| ==> FieldOf(items[i]) != FieldOf(items[j])

  /** The instance after the assignments, in order. */
  function Patched(e: CulturalEntry, items: seq<Assignment>): (r: CulturalEntry)
    ensures r.id == e.id && r.frequency == e.frequency && r.createdAt == e.createdAt
  {
    if items == [] then e else Assign(Patched(e, items[..|items| - 1]), items[|items| - 1])
  }

  /** `update` overwrites exactly the fields present in the validated data:
      each of them reads back its new value, and every other field, the
      read-only ones included, keeps its value. */
  lemma {:induction false} PatchedSpec(e: CulturalEntry, items: ValidatedItems)
    ensures var r := Patched(e, items);
      && r.id == e.id && r.frequency == e.frequency && r.createdAt == e.createdAt
      && (forall k :: 0 <= k < |items| ==> Read(r, FieldOf(items[k])) == items[k])
      && (forall f :: (forall k :: 0 <= k < |items| ==> FieldOf(items[k]) != f) ==> Read(r, f) == Read(e, f))
  {
    if items != [] {
      var n := |items| - 1;
      var init: ValidatedItems := items[..n];
      PatchedSpec(e, init);
      var mid := Patched(e, init);
      forall k | 0 <= k < |items| ensures Read(Patched(e, items), FieldOf(items[k])) == items[k] {
        if k < n {
          assert init[k] == items[k];
        }
      }
      forall f | forall k :: 0 <= k < |items| ==> FieldOf(items[k]) != f
        ensures Read(Patched(e, items), f) == Read(e, f)
      {
        assert FieldOf(items[n]) != f;
        assert forall k :: 0 <= k < |init| ==> init[k] == items[k];
      }
    }
  }

  /** The `setattr` loop of `update`, on the fetched instance. */
  method ApplyItems(instance: CulturalEntry, items: ValidatedItems) returns (r: CulturalEntry)
    ensures r == Patched(instance, items)
  {
    r := instance;
    for k := 0 to |items|
      invariant r == Patched(instance, items[..k])
    {
      assert items[..k + 1][..k] == items[..k];
      r := Assign(r, items[k]);
    }
    assert items[..|items|] == items;
  }

  // ---------------------------------------------------------------------
  // update: the whole operation

  /** The nested half of `update` for entry `entryId`, when every write
      succeeds: for each list that was supplied, the entry's old rows are
      deleted and one row per supplied item is created. */
  function ReplaceRows(t: Tables, entryId: nat, examples: Option<seq<ExampleData>>,
                       translations: Option<seq<TranslationData>>): (r: Tables)
    requires WellFormed(t) && entryId < t.nextEntryId
    requires translations.Some? ==> DistinctLanguages(translations.value)
    ensures WellFormed(r)
    ensures r.entries == t.entries
    ensures r.examples ==
      if examples.Some? then
        Filter(t.examples, (x: UsageExample) => x.entryId != entryId) + ExampleRows(examples.value, entryId, t.nextExampleId)
      else t.examples
    ensures r.translations ==
      if translations.Some? then
        Filter(t.translations, (x: AdditionalTranslation) => x.entryId != entryId) +
        TranslationRows(translations.value, entryId, t.nextTranslationId)
      else t.translations
    ensures r.collocations == t.collocations && r.logs == t.logs && r.nextEntryId == t.nextEntryId
  {
    var t1 := if examples.Some? then InsertExamples(DeleteExamplesOf(t, entryId), entryId, examples.value) else t;
    assert t1.translations == t.translations && WellFormed(t1) && t1.nextEntryId == t.nextEntryId;
    if translations.Some? then InsertTranslations(DeleteTranslationsOf(t1, entryId), entryId, translations.value) else t1
  }

  /** The tables after `update` when every write succeeds: the row saved
      with its new field values, then the supplied nested lists replaced. */
  function UpdatedTables(t: Tables, i: nat, items: ValidatedItems, examples: Option<seq<ExampleData>>,
                         translations: Option<seq<TranslationData>>): (r: Tables)
    requires WellFormed(t) && i < |t.entries|
    requires translations.Some? ==> DistinctLanguages(translations.value)
    ensures WellFormed(r)
    ensures r.entries == t.entries[i := Patched(t.entries[i], items)]
    ensures r.examples ==
      if examples.Some? then
        Filter(t.examples, (x: UsageExample) => x.entryId != t.entries[i].id) +
        ExampleRows(examples.value, t.entries[i].id, t.nextExampleId)
      else t.examples
    ensures r.translations ==
      if translations.Some? then
        Filter(t.translations, (x: AdditionalTranslation) => x.entryId != t.entries[i].id) +
        TranslationRows(translations.value, t.entries[i].id, t.nextTranslationId)
      else t.translations
    ensures r.collocations == t.collocations && r.logs == t.logs
  {
    var e := Patched(t.entries[i], items);
    ReplaceRows(SaveEntry(t, i, e), e.id, examples, translations)
  }

  /** The nested writes of `update`, on an entry that exists. A repeated
      language fails on its row after the earlier writes. */
  method ReplaceNested(db: Database, entryId: nat, examples: Option<seq<ExampleData>>,
                       translations: Option<seq<TranslationData>>) returns (r: Result<(), DbError>)
    requires db.Valid() && db.online && entryId < db.tables.nextEntryId
    modifies db
    ensures db.Valid() && db.online
    ensures (translations.Some? ==> DistinctLanguages(translations.value)) ==>
      r.Success? && db.tables == ReplaceRows(old(db.tables), entryId, examples, translations)
    ensures translations.Some? && !DistinctLanguages(translations.value) ==>
      r == Failure(IntegrityError) &&
      exists k :: 0 <= k < |translations.value| && DistinctLanguages(translations.value[..k]) &&
        LanguageIn(translations.value[k].language, translations.value[..k]) &&
        db.tables == ReplaceRows(old(db.tables), entryId, examples, Some(translations.value[..k]))
  {
    if examples.Some? {
      var _ := db.DeleteExamples(entryId);
      var _ := db.CreateExamples(entryId, examples.value);
    }
    ghost var t1 := db.tables;
    assert t1 == ReplaceRows(old(db.tables), entryId, examples, None);
    if translations.Some? {
      var _ := db.DeleteTranslations(entryId);
      var added := db.CreateTranslations(entryId, translations.value);
      if added.Failure? {
        return Failure(added.error);
      }
    }
    r := Success(());
  }

  /** `update`: save, then replace each nested list that was supplied. A
      repeated language fails on its row after the earlier writes. */
  method Update(db: Database, i: nat, items: ValidatedItems, examples: Option<seq<ExampleData>>,
                translations: Option<seq<TranslationData>>) returns (r: Result<CulturalEntry, DbError>)
    requires db.Valid() && i < |db.tables.entries|
    modifies db
    ensures db.Valid() && db.online == old(db.online)
    ensures !old(db.online) ==> r == Failure(Unavailable) && db.tables == old(db.tables)
    ensures old(db.online) && (translations.Some? ==> DistinctLanguages(translations.value)) ==>
      r == Success(Patched(old(db.tables).entries[i], items)) &&
      db.tables == UpdatedTables(old(db.tables), i, items, examples, translations)
    ensures old(db.online) && translations.Some? && !DistinctLanguages(translations.value) ==>
      r == Failure(IntegrityError) &&
      exists k :: 0 <= k < |translations.value| && DistinctLanguages(translations.value[..k]) &&
        LanguageIn(translations.value[k].language, translations.value[..k]) &&
        db.tables == UpdatedTables(old(db.tables), i, items, examples, Some(translations.value[..k]))
  {
    var instance := db.tables.entries[i];
    var updated := ApplyItems(instance, items);
    var saved := db.Save(i, updated);
    if saved.Failure? {
      return Failure(saved.error);
    }
    var replaced := ReplaceNested(db, updated.id, examples, translations);
    if replaced.Failure? {
      return Failure(replaced.error);
    }
    r := Success(updated);
  }

  /** `update` writes the patched row in place and changes no other entry,
      collocation or log row. */
  lemma UpdateEntriesSpec(t: Tables, i: nat, items: ValidatedItems, examples: Option<seq<ExampleData>>,
                          translations: Option<seq<TranslationData>>)
    requires WellFormed(t) && i < |t.entries|
    requires translations.Some? ==> DistinctLanguages(translations.value)
    ensures var r := UpdatedTables(t, i, items, examples, translations);
      && |r.entries| == |t.entries|
      && r.entries[i] == Patched(t.entries[i], items)
      && (forall j :: 0 <= j < |t.entries| && j != i ==> r.entries[j] == t.entries[j])
      && r.collocations == t.collocations && r.logs == t.logs
  {
  }

  /** With `examples` omitted the entry keeps its examples; with `examples`
      supplied, even empty, its examples become exactly one new row per
      supplied item. No other entry's examples change. */
  lemma UpdateExamplesReplaceOrKeep(t: Tables, i: nat, items: ValidatedItems, examples: Option<seq<ExampleData>>,
                                    translations: Option<seq<TranslationData>>, other: nat)
    requires WellFormed(t) && i < |t.entries|
    requires translations.Some? ==> DistinctLanguages(translations.value)
    ensures var r, id := UpdatedTables(t, i, items, examples, translations), t.entries[i].id;
      && ExamplesOf(r.examples, id) ==
           (if examples.Some? then ExampleRows(examples.value, id, t.nextExampleId) else ExamplesOf(t.examples, id))
      && (other != id ==> ExamplesOf(r.examples, other) == ExamplesOf(t.examples, other))
  {
    var id := t.entries[i].id;
    var r := UpdatedTables(t, i, items, examples, translations);
    if examples.Some? {
      var ne := (x: UsageExample) => x.entryId != id;
      var kept := Filter(t.examples, ne);
      var rows := ExampleRows(examples.value, id, t.nextExampleId);
      FilterAppendFresh(kept, rows, (x: UsageExample) => x.entryId == id);
      if other != id {
        FilterAppendIgnored(kept, rows, (x: UsageExample) => x.entryId == other);
        FilterFilter(t.examples, ne, (x: UsageExample) => x.entryId == other);
      }
    }
  }

  /** With `additional_translations` omitted the entry keeps its
      translations; with them supplied, even empty, its translation rows
      become exactly one new row per supplied item. No other entry's
      translations change. */
  lemma UpdateTranslationsReplaceOrKeep(t: Tables, i: nat, items: ValidatedItems, examples: Option<seq<ExampleData>>,
                                        translations: Option<seq<TranslationData>>, other: nat)
    requires WellFormed(t) && i < |t.entries|
    requires translations.Some? ==> DistinctLanguages(translations.value)
    ensures var r, id := UpdatedTables(t, i, items, examples, translations), t.entries[i].id;
      && LinkedTranslations(r.translations, id) ==
           (if translations.Some? then TranslationRows(translations.value, id, t.nextTranslationId)
            else LinkedTranslations(t.translations, id))
      && (other != id ==> LinkedTranslations(r.translations, other) == LinkedTranslations(t.translations, other))
  {
    var id := t.entries[i].id;
    var r := UpdatedTables(t, i, items, examples, translations);
    if translations.Some? {
      var ne := (x: AdditionalTranslation) => x.entryId != id;
      var kept := Filter(t.translations, ne);
      var rows := TranslationRows(translations.value, id, t.nextTranslationId);
      FilterAppendFresh(kept, rows, (x: AdditionalTranslation) => x.entryId == id);
      if other != id {
        FilterAppendIgnored(kept, rows, (x: AdditionalTranslation) => x.entryId == other);
        FilterFilter(t.translations, ne, (x: AdditionalTranslation) => x.entryId == other);
      }
    }
  }
}
